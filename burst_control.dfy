/** `BurstControl`: the earlier touch-and-hold burst controller, without
    operation modes. It keeps the same per-point bookkeeping and the same
    single active point as `UserStudyInterface`; it differs in its emitters
    (500 particles), its exposure rate (0.013), its environment drift (every
    band 0.2) and its completion check, which does nothing. */
module BurstController {
  import opened Scene
  import opened TrailBurst
  import opened BurstRules
  import opened BurstSetup

  /** Exposure added per second of emission, before the decay. */
  const ExposureRate := 0.013

  /** Half-width of the band each subtly drifting environment value stays in. */
  const EnvironmentBand := 0.2

  class BurstControl {
    const burstPoints: seq<ObjectId>
    const burstDuration: real
    const requiredHoldTime: real
    const initialBurstParameter: real
    const baseWindSpeed: real
    const baseHumidity: real
    const baseTemperature: real
    const parameterVariation: real
    const useVerySubtleChanges: bool
    /** The burst points as a set. */
    ghost const pointSet: set<ObjectId> := set p | p in burstPoints

    /** The emitter of each burst point; the dictionary is filled once, by
        `Start`. */
    const burstSystems: map<ObjectId, TrailBurst>
    ghost const emitters: set<TrailBurst> := burstSystems.Values
    /** The dictionaries `burstPointCollisionCount`, `burstPointsTouching`,
        `burstPointHoldTimes` and `burstPointCompleted`, one record per key. */
    var burstPointStates: map<ObjectId, PointState>
    var currentActiveBurstPoint: Option<ObjectId>
    var burstActiveTimer: real
    var currentBurstParameter: real
    var gameCompleted: bool
    var currentWindSpeed: real
    var currentHumidity: real
    var currentTemperature: real
    var touchingRequired: bool

    /** Every burst point has bookkeeping and an emitter and nothing else
        has; every point's bookkeeping is valid; the exposure timer is never
        negative; the active point, if any, is a burst point. The game is
        never completed: `CheckGameCompletion` is empty, and `Start` and
        `ResetAllBurstPoints`, the only writers of `gameCompleted`, clear
        it. */
    ghost predicate Valid()
      reads this`burstPointStates, this`currentActiveBurstPoint, this`burstActiveTimer, this`gameCompleted
    {
      && !gameCompleted
      && burstSystems.Keys == pointSet
      && burstPointStates.Keys == pointSet
      && (forall p :: p in burstPointStates ==> burstPointStates[p].Valid())
      && (currentActiveBurstPoint.Some? ==> currentActiveBurstPoint.value in pointSet)
      && burstActiveTimer >= 0.0
    }

    ghost predicate AnyEmitting()
      reads emitters
    {
      exists s :: s in emitters && s.IsEmitting()
    }

    ghost function ExposureState(): Exposure
      reads this`burstActiveTimer, this`currentBurstParameter
    {
      Exposure(burstActiveTimer, currentBurstParameter)
    }

    /** The point a held button works on: the active point while it still
        touches, otherwise the first touching point in list order. */
    ghost function Selected(active: Option<ObjectId>): Option<ObjectId>
      reads this`burstPointStates
      requires forall p :: p in burstPoints ==> p in burstPointStates
    {
      if active.Some? && active.value in burstPointStates && burstPointStates[active.value].touching then active
      else FirstTouching(burstPoints, burstPointStates)
    }

    /** Every emitter was stopped. */
    twostate predicate AllStopped()
      reads emitters
    {
      forall s :: s in emitters ==> s.State() == old(s.State()).Stopped()
    }

    /** No contact was gained or lost and no point lost its completion. */
    twostate predicate ContactsKept()
      reads this`burstPointStates
    {
      && burstPointStates.Keys == old(burstPointStates).Keys
      && forall q :: q in burstPointStates ==>
           && burstPointStates[q].collisionCount == old(burstPointStates)[q].collisionCount
           && (old(burstPointStates)[q].completed ==> burstPointStates[q].completed)
    }

    /** The new state `HandleBurstInput` leaves. With the button up every
        emitter is stopped, incomplete points lose their hold time and no
        point is active. With it down every emitter is stopped, the selected
        point becomes the active one, only its emitter is started again, and
        only it takes a held frame. */
    twostate predicate InputHandled(isButtonPressed: bool, dt: real)
      requires old(Valid())
      reads this`burstPointStates, this`currentActiveBurstPoint, emitters
    {
      if !isButtonPressed then
        && currentActiveBurstPoint == None && AllStopped()
        && burstPointStates.Keys == old(burstPointStates).Keys
        && (forall q :: q in burstPointStates ==> burstPointStates[q] == old(burstPointStates)[q].Released())
      else
        var a := old(Selected(currentActiveBurstPoint));
        && currentActiveBurstPoint == a
        && (forall s :: s in emitters ==>
              s.State() ==
                if a.Some? && a.value in burstSystems && s == burstSystems[a.value] then old(s.State()).Stopped().Started()
                else old(s.State()).Stopped())
        && burstPointStates.Keys == old(burstPointStates).Keys
        && (forall q :: q in burstPointStates ==>
              burstPointStates[q] ==
                if a == Some(q) then old(burstPointStates)[q].Held(dt, requiredHoldTime) else old(burstPointStates)[q])
    }

    /** The effect of a contact starting on `burstPoint`: a null or unknown
        object changes nothing. */
    twostate predicate EnterApplied(burstPoint: Option<ObjectId>)
      reads this`burstPointStates
    {
      if burstPoint.Some? && burstPoint.value in burstPoints && burstPoint.value in old(burstPointStates) then
        burstPointStates == old(burstPointStates)[burstPoint.value := old(burstPointStates)[burstPoint.value].Entered()]
      else
        burstPointStates == old(burstPointStates)
    }

    /** The effect of a contact ending on `burstPoint`: its count drops
        (never below 0); if it was the active point and lost its last
        contact it is no longer active, and unless it was completed its
        emitter stops and its hold time resets. A null or unknown object
        changes nothing. */
    twostate predicate ExitApplied(burstPoint: Option<ObjectId>)
      reads this`burstPointStates, this`currentActiveBurstPoint, emitters
    {
      if burstPoint.Some? && burstPoint.value in burstPoints && burstPoint.value in old(burstPointStates) then
        var p := burstPoint.value;
        var exited := old(burstPointStates)[p].Exited();
        var lost := old(currentActiveBurstPoint) == Some(p) && !exited.touching;
        var reset := lost && !exited.completed;
        && burstPointStates == old(burstPointStates)[p := if reset then exited.(holdTime := 0.0) else exited]
        && currentActiveBurstPoint == (if lost then None else old(currentActiveBurstPoint))
        && (forall s :: s in emitters ==>
              s.State() ==
                if reset && p in burstSystems && s == burstSystems[p] then old(s.State()).Stopped() else old(s.State()))
      else
        && burstPointStates == old(burstPointStates)
        && currentActiveBurstPoint == old(currentActiveBurstPoint)
        && (forall s :: s in emitters ==> s.State() == old(s.State()))
    }

    /** `Start`: one idle emitter per burst point (500 particles, force 10,
        spread 5, mouse control off), fresh bookkeeping, the initial exposure
        parameter, and the environment at its base values. */
    constructor Start(burstPoints: seq<ObjectId>, burstDuration: real, requiredHoldTime: real,
                      initialBurstParameter: real, baseWindSpeed: real, baseHumidity: real,
                      baseTemperature: real, parameterVariation: real, useVerySubtleChanges: bool,
                      touchingRequired: bool)
      ensures Valid()
      ensures this.burstPoints == burstPoints && this.requiredHoldTime == requiredHoldTime
      ensures fresh(emitters)
      ensures forall p :: p in burstSystems ==> NewEmitter(burstSystems[p], burstDuration, 500)
      ensures forall p :: p in burstPointStates ==> burstPointStates[p] == Fresh
      ensures currentActiveBurstPoint == None && !gameCompleted
      ensures ExposureState() == Exposure(0.0, initialBurstParameter)
      ensures currentWindSpeed == baseWindSpeed && currentHumidity == baseHumidity
      ensures currentTemperature == baseTemperature
    {
      var systems, states := CreateBurstSystems(burstPoints, burstDuration, 500);
      this.burstPoints := burstPoints;
      this.burstDuration := burstDuration;
      this.requiredHoldTime := requiredHoldTime;
      this.initialBurstParameter := initialBurstParameter;
      this.baseWindSpeed := baseWindSpeed;
      this.baseHumidity := baseHumidity;
      this.baseTemperature := baseTemperature;
      this.parameterVariation := parameterVariation;
      this.useVerySubtleChanges := useVerySubtleChanges;
      burstSystems := systems;
      burstPointStates := states;
      currentActiveBurstPoint := None;
      burstActiveTimer := 0.0;
      currentBurstParameter := initialBurstParameter;
      gameCompleted := false;
      this.touchingRequired := touchingRequired;
      currentWindSpeed := baseWindSpeed;
      currentHumidity := baseHumidity;
      currentTemperature := baseTemperature;
    }

    /** `OnEnable` (its bookkeeping part): every contact is forgotten. The
        active point is left as it was. */
    method OnEnable()
      requires Valid()
      modifies this`burstPointStates
      ensures Valid()
      ensures forall p :: p in burstPointStates ==>
                burstPointStates[p] == old(burstPointStates)[p].(collisionCount := 0, touching := false)
    {
      var i := 0;
      while i < |burstPoints|
        invariant 0 <= i <= |burstPoints|
        invariant burstPointStates.Keys == old(burstPointStates).Keys
        invariant forall q :: q in burstPointStates ==>
                    burstPointStates[q] in {old(burstPointStates)[q],
                                            old(burstPointStates)[q].(collisionCount := 0, touching := false)}
        invariant forall j :: 0 <= j < i ==>
                    burstPointStates[burstPoints[j]] ==
                      old(burstPointStates)[burstPoints[j]].(collisionCount := 0, touching := false)
      {
        var p := burstPoints[i];
        burstPointStates := burstPointStates[p := burstPointStates[p].(collisionCount := 0, touching := false)];
        i := i + 1;
      }
    }

    /** `OnBurstPointCollisionEnter`. */
    method OnBurstPointCollisionEnter(burstPoint: Option<ObjectId>)
      requires Valid()
      modifies this`burstPointStates
      ensures Valid()
      ensures EnterApplied(burstPoint)
    {
      if burstPoint.None? || burstPoint.value !in burstPoints {
        return;
      }
      var p := burstPoint.value;
      burstPointStates := burstPointStates[p := burstPointStates[p].Entered()];
    }

    /** `OnBurstPointCollisionExit`. */
    method OnBurstPointCollisionExit(burstPoint: Option<ObjectId>)
      requires Valid()
      modifies this`burstPointStates, this`currentActiveBurstPoint, emitters`isBursting
      ensures Valid()
      ensures ExitApplied(burstPoint)
    {
      if burstPoint.None? || burstPoint.value !in burstPoints {
        return;
      }
      var p := burstPoint.value;
      var exited := burstPointStates[p].Exited();
      burstPointStates := burstPointStates[p := exited];
      if currentActiveBurstPoint == Some(p) && !exited.touching {
        if !exited.completed {
          burstSystems[p].StopBursting();
          burstPointStates := burstPointStates[p := exited.(holdTime := 0.0)];
        }
        currentActiveBurstPoint := None;
      }
    }

    /** `CheckCollisionWithBurstPoint`: looks the object up among the burst
        points and forwards the event; an object that is not a burst point
        changes nothing. */
    method CheckCollisionWithBurstPoint(collidedObject: ObjectId, isEntering: bool)
      requires Valid()
      modifies this`burstPointStates, this`currentActiveBurstPoint, emitters`isBursting
      ensures Valid()
      ensures isEntering ==>
                EnterApplied(Some(collidedObject)) && currentActiveBurstPoint == old(currentActiveBurstPoint) &&
                unchanged(emitters)
      ensures !isEntering ==> ExitApplied(Some(collidedObject))
    {
      var i := 0;
      while i < |burstPoints|
        invariant 0 <= i <= |burstPoints|
        invariant forall j :: 0 <= j < i ==> burstPoints[j] != collidedObject
      {
        if collidedObject == burstPoints[i] {
          if isEntering {
            OnBurstPointCollisionEnter(Some(burstPoints[i]));
          } else {
            OnBurstPointCollisionExit(Some(burstPoints[i]));
          }
          return;
        }
        i := i + 1;
      }
    }

    /** `OnTriggerEnter`. */
    method OnTriggerEnter(other: ObjectId)
      requires Valid()
      modifies this`burstPointStates, this`currentActiveBurstPoint, emitters`isBursting
      ensures Valid()
      ensures EnterApplied(Some(other))
      ensures currentActiveBurstPoint == old(currentActiveBurstPoint) && unchanged(emitters)
    {
      CheckCollisionWithBurstPoint(other, true);
    }

    /** `OnTriggerExit`. */
    method OnTriggerExit(other: ObjectId)
      requires Valid()
      modifies this`burstPointStates, this`currentActiveBurstPoint, emitters`isBursting
      ensures Valid()
      ensures ExitApplied(Some(other))
    {
      CheckCollisionWithBurstPoint(other, false);
    }

    /** Stops every emitter (the loop that opens `HandleBurstInput` and
        `ToggleTouchingRequirement`). */
    method StopAllBurstSystems()
      modifies emitters`isBursting
      ensures AllStopped()
    {
      var rest := burstSystems.Values;
      while rest != {}
        invariant rest <= emitters
        invariant forall s :: s in emitters - rest ==> s.State() == old(s.State()).Stopped()
        invariant forall s :: s in rest ==> s.State() == old(s.State())
        decreases rest
      {
        var s :| s in rest;
        s.StopBursting();
        rest := rest - {s};
      }
    }

    /** With the button up, every incomplete point loses its hold time. */
    method ReleaseHoldTimes()
      requires Valid()
      modifies this`burstPointStates
      ensures Valid()
      ensures forall q :: q in burstPointStates ==> burstPointStates[q] == old(burstPointStates)[q].Released()
    {
      var i := 0;
      while i < |burstPoints|
        invariant 0 <= i <= |burstPoints|
        invariant burstPointStates.Keys == old(burstPointStates).Keys
        invariant forall q :: q in burstPointStates ==>
                    burstPointStates[q] in {old(burstPointStates)[q], old(burstPointStates)[q].Released()}
        invariant forall j :: 0 <= j < i ==>
                    burstPointStates[burstPoints[j]] == old(burstPointStates)[burstPoints[j]].Released()
      {
        var p := burstPoints[i];
        if !burstPointStates[p].completed {
          burstPointStates := burstPointStates[p := burstPointStates[p].(holdTime := 0.0)];
        }
        i := i + 1;
      }
    }

    /** The search loop of `HandleBurstInput`: the first touching point in
        list order. */
    method FindFirstTouching() returns (found: Option<ObjectId>)
      requires forall p :: p in burstPoints ==> p in burstPointStates
      ensures found == FirstTouching(burstPoints, burstPointStates)
      ensures found.Some? ==> found.value in burstPoints && burstPointStates[found.value].touching
    {
      var i := 0;
      while i < |burstPoints|
        invariant 0 <= i <= |burstPoints|
        invariant FirstTouchingFrom(burstPoints, burstPointStates, i) == FirstTouching(burstPoints, burstPointStates)
      {
        if burstPointStates[burstPoints[i]].touching {
          return Some(burstPoints[i]);
        }
        i := i + 1;
      }
      return None;
    }

    /** The selection step of `HandleBurstInput` with the button down: an
        active point that no longer touches is dropped, and without an
        active point the first touching one is taken. */
    method SelectActivePoint()
      requires Valid()
      modifies this`currentActiveBurstPoint
      ensures Valid()
      ensures currentActiveBurstPoint == Selected(old(currentActiveBurstPoint))
      ensures currentActiveBurstPoint.Some? ==> burstPointStates[currentActiveBurstPoint.value].touching
    {
      if currentActiveBurstPoint.Some? && !burstPointStates[currentActiveBurstPoint.value].touching {
        currentActiveBurstPoint := None;
      }
      if currentActiveBurstPoint.None? {
        currentActiveBurstPoint := FindFirstTouching();
      }
    }

    /** The processing step of `HandleBurstInput` for a touching active
        point: its emitter starts whether or not the point is completed; an
        incomplete point takes one held frame (the completion check that
        follows a completion does nothing). */
    method HoldActivePoint(dt: real)
      requires Valid() && dt >= 0.0 && currentActiveBurstPoint.Some?
      modifies this`burstPointStates, emitters`isBursting, emitters`emissionTimer
      ensures Valid()
      ensures var p := currentActiveBurstPoint.value;
              && burstPointStates == old(burstPointStates)[p := old(burstPointStates)[p].Held(dt, requiredHoldTime)]
              && (forall s :: s in emitters ==>
                    s.State() == if s == burstSystems[p] then old(s.State()).Started() else old(s.State()))
      ensures ContactsKept()
    {
      var p := currentActiveBurstPoint.value;
      burstSystems[p].StartBursting();
      if !burstPointStates[p].completed {
        var h := burstPointStates[p].holdTime + dt;
        burstPointStates := burstPointStates[p := burstPointStates[p].(holdTime := h)];
        if h >= requiredHoldTime {
          burstPointStates := burstPointStates[p := burstPointStates[p].(completed := true)];
        }
      }
    }

    /** `HandleBurstInput` with the button up: every emitter stops,
        incomplete points lose their hold time and no point is active. */
    method ReleasedFrame()
      requires Valid()
      modifies this`burstPointStates, this`currentActiveBurstPoint, emitters`isBursting
      ensures Valid()
      ensures currentActiveBurstPoint == None && AllStopped()
      ensures forall q :: q in burstPointStates ==> burstPointStates[q] == old(burstPointStates)[q].Released()
      ensures forall s :: s in emitters ==> !s.isBursting
      ensures ContactsKept()
    {
      StopAllBurstSystems();
      ReleaseHoldTimes();
      currentActiveBurstPoint := None;
    }

    /** Selection and processing of the active point with the button down
        (`HandleBurstInput` after its stopping loop): only the selected
        point's emitter is started, and only that point takes a held frame. */
    method SelectAndHold(dt: real)
      requires Valid() && dt >= 0.0
      modifies this`burstPointStates, this`currentActiveBurstPoint,
               emitters`isBursting, emitters`emissionTimer
      ensures Valid()
      ensures var a := old(Selected(currentActiveBurstPoint));
              && currentActiveBurstPoint == a
              && (forall s :: s in emitters ==>
                    s.State() == if a.Some? && s == burstSystems[a.value] then old(s.State()).Started() else old(s.State()))
              && (forall q :: q in burstPointStates ==>
                    burstPointStates[q] ==
                      if a == Some(q) then old(burstPointStates)[q].Held(dt, requiredHoldTime) else old(burstPointStates)[q])
      ensures ContactsKept()
    {
      SelectActivePoint();
      if currentActiveBurstPoint.Some? && burstPointStates[currentActiveBurstPoint.value].touching {
        HoldActivePoint(dt);
      }
    }

    /** `HandleBurstInput` with the button down: every emitter stops; the
        active point is kept while it touches and otherwise replaced by the
        first touching point; only that point's emitter is started, and it
        takes one held frame. */
    method PressedFrame(dt: real)
      requires Valid() && dt >= 0.0
      modifies this`burstPointStates, this`currentActiveBurstPoint,
               emitters`isBursting, emitters`emissionTimer
      ensures Valid()
      ensures var a := old(Selected(currentActiveBurstPoint));
              && currentActiveBurstPoint == a
              && (forall s :: s in emitters ==>
                    s.State() ==
                      if a.Some? && s == burstSystems[a.value] then old(s.State()).Stopped().Started()
                      else old(s.State()).Stopped())
              && (forall q :: q in burstPointStates ==>
                    burstPointStates[q] ==
                      if a == Some(q) then old(burstPointStates)[q].Held(dt, requiredHoldTime) else old(burstPointStates)[q])
      ensures forall s :: s in emitters && s.isBursting ==>
                currentActiveBurstPoint.Some? && s == burstSystems[currentActiveBurstPoint.value]
      ensures ContactsKept()
    {
      StopAllBurstSystems();
      SelectAndHold(dt);
    }

    /** `HandleBurstInput` for one frame of `dt` seconds with the burst
        button up or down (see `ReleasedFrame` and `PressedFrame`); every
        emitter is stopped first. Afterwards at most the active point's
        emitter is bursting. */
    method HandleBurstInput(isButtonPressed: bool, dt: real)
      requires Valid() && dt >= 0.0
      modifies this`burstPointStates, this`currentActiveBurstPoint,
               emitters`isBursting, emitters`emissionTimer
      ensures Valid()
      ensures InputHandled(isButtonPressed, dt)
      ensures forall s :: s in emitters && s.isBursting ==>
                currentActiveBurstPoint.Some? && s == burstSystems[currentActiveBurstPoint.value]
      ensures ContactsKept()
    {
      if isButtonPressed {
        PressedFrame(dt);
      } else {
        ReleasedFrame();
      }
    }

    /** Whether some emitter is emitting (the search loop of
        `UpdateBurstParameter`). */
    method AnyBurstSystemEmitting() returns (anyBursting: bool)
      ensures anyBursting <==> AnyEmitting()
    {
      var rest := burstSystems.Values;
      while rest != {}
        invariant rest <= emitters
        invariant forall s :: s in emitters - rest ==> !s.IsEmitting()
        decreases rest
      {
        var s :| s in rest;
        if s.IsEmitting() {
          return true;
        }
        rest := rest - {s};
      }
      return false;
    }

    /** `UpdateBurstParameter`: one exposure step at rate 0.013. */
    method UpdateBurstParameter(dt: real)
      requires Valid() && dt >= 0.0
      modifies this`burstActiveTimer, this`currentBurstParameter
      ensures Valid()
      ensures ExposureState() == ExposureStep(old(ExposureState()), AnyEmitting(), dt, ExposureRate)
    {
      var anyBursting := AnyBurstSystemEmitting();
      if anyBursting {
        burstActiveTimer := burstActiveTimer + dt;
        currentBurstParameter := currentBurstParameter + Increment(ExposureRate, burstActiveTimer);
      } else {
        burstActiveTimer := 0.0;
      }
    }

    /** `UpdateEnvironmentParameters` with the three random draws as inputs:
        subtle drift clamped to a band of 0.2 around each base value, or a
        fresh value around each base. */
    method UpdateEnvironmentParameters(windDraw: real, humidityDraw: real, temperatureDraw: real)
      modifies this`currentWindSpeed, this`currentHumidity, this`currentTemperature
      ensures useVerySubtleChanges ==>
                && currentWindSpeed == Drift(old(currentWindSpeed), baseWindSpeed, windDraw, EnvironmentBand)
                && currentHumidity == Drift(old(currentHumidity), baseHumidity, humidityDraw, EnvironmentBand)
                && currentTemperature == Drift(old(currentTemperature), baseTemperature, temperatureDraw, EnvironmentBand)
      ensures useVerySubtleChanges ==>
                && baseWindSpeed - 0.2 <= currentWindSpeed <= baseWindSpeed + 0.2
                && baseHumidity - 0.2 <= currentHumidity <= baseHumidity + 0.2
                && baseTemperature - 0.2 <= currentTemperature <= baseTemperature + 0.2
      ensures !useVerySubtleChanges ==>
                && currentWindSpeed == Resampled(baseWindSpeed, windDraw)
                && currentHumidity == Resampled(baseHumidity, humidityDraw)
                && currentTemperature == Resampled(baseTemperature, temperatureDraw)
    {
      if useVerySubtleChanges {
        currentWindSpeed := currentWindSpeed + windDraw;
        currentHumidity := currentHumidity + humidityDraw;
        currentTemperature := currentTemperature + temperatureDraw;
        currentWindSpeed := Clamp(currentWindSpeed, baseWindSpeed - EnvironmentBand, baseWindSpeed + EnvironmentBand);
        currentHumidity := Clamp(currentHumidity, baseHumidity - EnvironmentBand, baseHumidity + EnvironmentBand);
        currentTemperature := Clamp(currentTemperature, baseTemperature - EnvironmentBand, baseTemperature + EnvironmentBand);
      } else {
        var windVariation := windDraw * baseWindSpeed;
        var humidityVariation := humidityDraw * baseHumidity;
        var temperatureVariation := temperatureDraw * baseTemperature;
        currentWindSpeed := baseWindSpeed + windVariation;
        currentHumidity := baseHumidity + humidityVariation;
        currentTemperature := baseTemperature + temperatureVariation;
      }
    }

    /** The bookkeeping loop of `ResetAllBurstPoints`. */
    method ResetPointStates()
      requires Valid()
      modifies this`burstPointStates
      ensures Valid()
      ensures forall q :: q in burstPointStates ==> burstPointStates[q] == Fresh
    {
      var i := 0;
      while i < |burstPoints|
        invariant 0 <= i <= |burstPoints|
        invariant burstPointStates.Keys == old(burstPointStates).Keys
        invariant forall q :: q in burstPointStates ==> burstPointStates[q] in {old(burstPointStates)[q], Fresh}
        invariant forall j :: 0 <= j < i ==> burstPointStates[burstPoints[j]] == Fresh
      {
        burstPointStates := burstPointStates[burstPoints[i] := Fresh];
        i := i + 1;
      }
    }

    /** `ResetAllBurstPoints`: every point back to fresh bookkeeping with its
        emitter stopped; exposure back to its initial value; no active
        point. */
    method ResetAllBurstPoints()
      requires Valid()
      modifies this`burstPointStates, this`gameCompleted, this`burstActiveTimer,
               this`currentBurstParameter, this`currentActiveBurstPoint, emitters`isBursting
      ensures Valid()
      ensures forall q :: q in burstPointStates ==> burstPointStates[q] == Fresh
      ensures AllStopped()
      ensures !gameCompleted && currentActiveBurstPoint == None
      ensures ExposureState() == Exposure(0.0, initialBurstParameter)
    {
      ResetPointStates();
      StopAllBurstSystems();
      gameCompleted := false;
      burstActiveTimer := 0.0;
      currentBurstParameter := initialBurstParameter;
      currentActiveBurstPoint := None;
    }

    /** The hold-time loop of `ToggleTouchingRequirement`: completed points
        are zeroed too. */
    method ZeroHoldTimes()
      requires Valid()
      modifies this`burstPointStates
      ensures Valid()
      ensures forall q :: q in burstPointStates ==> burstPointStates[q] == old(burstPointStates)[q].(holdTime := 0.0)
    {
      var i := 0;
      while i < |burstPoints|
        invariant 0 <= i <= |burstPoints|
        invariant burstPointStates.Keys == old(burstPointStates).Keys
        invariant forall q :: q in burstPointStates ==>
                    burstPointStates[q] in {old(burstPointStates)[q], old(burstPointStates)[q].(holdTime := 0.0)}
        invariant forall j :: 0 <= j < i ==>
                    burstPointStates[burstPoints[j]] == old(burstPointStates)[burstPoints[j]].(holdTime := 0.0)
      {
        var p := burstPoints[i];
        burstPointStates := burstPointStates[p := burstPointStates[p].(holdTime := 0.0)];
        i := i + 1;
      }
    }

    /** `ToggleTouchingRequirement`: touching stays required; every emitter
        stops, every hold time (completed points included) is zeroed, and no
        point is active. */
    method ToggleTouchingRequirement()
      requires Valid()
      modifies this`touchingRequired, this`burstPointStates, this`currentActiveBurstPoint,
               emitters`isBursting
      ensures Valid()
      ensures touchingRequired && currentActiveBurstPoint == None
      ensures forall q :: q in burstPointStates ==> burstPointStates[q] == old(burstPointStates)[q].(holdTime := 0.0)
      ensures AllStopped()
    {
      touchingRequired := true;
      StopAllBurstSystems();
      ZeroHoldTimes();
      currentActiveBurstPoint := None;
    }

    /** One frame of `Update`: the input is handled and the exposure takes
        one step, driven by whether an emitter is emitting once the input is
        handled (the completion check does nothing). The early return for a
        completed game is never taken, because `Valid` keeps `gameCompleted`
        false. */
    method Update(dt: real, isButtonPressed: bool)
      requires Valid() && dt >= 0.0
      modifies this`burstPointStates, this`currentActiveBurstPoint, this`burstActiveTimer,
               this`currentBurstParameter, emitters`isBursting, emitters`emissionTimer
      ensures Valid()
      ensures InputHandled(isButtonPressed, dt)
      ensures ExposureState() == ExposureStep(old(ExposureState()), AnyEmitting(), dt, ExposureRate)
      ensures !isButtonPressed ==> ExposureState() == Exposure(0.0, old(currentBurstParameter))
      ensures ContactsKept()
    {
      HandleBurstInput(isButtonPressed, dt);
      label handled:
      UpdateBurstParameter(dt);
      assert unchanged@handled(emitters, this`burstPointStates, this`currentActiveBurstPoint);
    }
  }
}
