/** `UserStudyInterface`: the touch-and-hold burst controller of the study,
    with a training mode and a study mode. Each burst point owns one
    `TrailBurst` emitter and four entries of per-point bookkeeping (contact
    count, touching flag, hold time, completed flag); a single active point is
    the one being held. */
module UserStudy {
  import opened Scene
  import opened TrailBurst
  import opened BurstRules
  import opened BurstSetup

  datatype OperationMode = Training | Study

  /** Exposure added per second of emission, before the decay. */
  const ExposureRate := 0.01

  /** Exposure added per second of a training burst, before the decay. */
  const TrainingRate := 0.028

  /** Half-widths of the bands the subtle environment drift stays in. */
  const WindBand := 0.3
  const HumidityBand := 0.1
  const TemperatureBand := 0.2

  function Toggled(m: OperationMode): OperationMode
  {
    if m == Training then Study else Training
  }

  /** The training fields `SetupOperationMode` sets: the training index,
      the training point, whether the visualization is shown, and the
      iteration count. */
  datatype TrainingSetup = TrainingSetup(index: int, point: Option<ObjectId>, visible: bool, iteration: int)

  /** `SetupOperationMode` on the training fields: training clamps the
      index into the list and, when there are burst points, picks the
      training point, shows the visualization and restarts the iteration
      count; study hides the visualization and drops the training point. */
  function ModeSetup(mode: OperationMode, points: seq<ObjectId>, s: TrainingSetup): (r: TrainingSetup)
    ensures mode == Training && |points| > 0 ==>
              && 0 <= r.index < |points| && r.point == Some(points[r.index])
              && r.visible && r.iteration == 0
    ensures mode == Training ==> r.index == ClampInt(s.index, 0, |points| - 1)
    ensures mode == Training && |points| == 0 ==> r.point == s.point && r.visible == s.visible && r.iteration == s.iteration
    ensures mode == Study ==> !r.visible && r.point == None && r.index == s.index && r.iteration == s.iteration
  {
    if mode == Training then
      var i := ClampInt(s.index, 0, |points| - 1);
      if |points| > 0 then TrainingSetup(i, Some(points[i]), true, 0) else s.(index := i)
    else
      s.(point := None, visible := false)
  }

  /** With burst points, or in study mode, setting a mode up twice is the
      same as setting it up once; with burst points a training setup depends
      on nothing but the index. */
  lemma ModeSetupIdempotent(mode: OperationMode, points: seq<ObjectId>, s: TrainingSetup, t: TrainingSetup)
    requires mode == Study || |points| > 0
    ensures ModeSetup(mode, points, ModeSetup(mode, points, s)) == ModeSetup(mode, points, s)
    ensures mode == Training && s.index == t.index ==> ModeSetup(mode, points, s) == ModeSetup(mode, points, t)
  {
  }

  /** Without burst points the clamp has its bounds the wrong way round
      (0 and -1), so repeated training setups move the index back and forth
      between 0 and -1. */
  lemma EmptyTrainingIndexAlternates(s: TrainingSetup)
    requires s.index == 0
    ensures ModeSetup(Training, [], s).index == -1
    ensures ModeSetup(Training, [], ModeSetup(Training, [], s)).index == 0
  {
  }

  /** What the V, M and R keys of one frame do to the mode and the training
      fields, computed from the state before them: whether M toggled the
      mode, the mode afterwards, the training fields once M has set the mode
      up, whether that set-up ran the training routine, whether R restarts
      training, whether the restart runs the routine, and the training
      fields at the end. */
  datatype KeyPlan = KeyPlan(toggled: bool, mode: OperationMode, afterMode: TrainingSetup, modeRuns: bool,
                             restart: bool, restartRuns: bool, training: TrainingSetup)

  class UserStudyInterface {
    const burstPoints: seq<ObjectId>
    const burstDuration: real
    const requiredHoldTime: real
    const initialBurstParameter: real
    const baseWindSpeed: real
    const baseHumidity: real
    const baseTemperature: real
    const parameterVariation: real
    const useVerySubtleChanges: bool
    const trainingBurstDuration: real
    const trainingIterations: int
    const loopTrainingInfinitely: bool
    /** The burst points as a set. */
    ghost const pointSet: set<ObjectId> := set p | p in burstPoints

    /** The emitter of each burst point; the dictionary is filled once, by
        `Start`. */
    const burstSystems: map<ObjectId, TrailBurst>
    ghost const emitters: set<TrailBurst> := burstSystems.Values
    /** The dictionaries `burstPointCollisionCount`, `burstPointsTouching`,
        `burstPointHoldTimes` and `burstPointCompleted`, one record per key. */
    var burstPointStates: map<ObjectId, PointState>
    var currentActiveBurstPoint: Option<ObjectId>
    var burstActiveTimer: real
    var currentBurstParameter: real
    var gameCompleted: bool
    var currentWindSpeed: real
    var currentHumidity: real
    var currentTemperature: real
    var currentMode: OperationMode
    var trainingBurstPointIndex: int
    var trainingBurstPoint: Option<ObjectId>
    var currentTrainingIteration: int
    var showBurstVisualization: bool
    var touchingRequired: bool


    /** Every burst point has bookkeeping and an emitter and nothing else
        has; every point's bookkeeping is valid; the exposure timer is never
        negative; the active point, if any, is a burst point. The game is
        never completed: the assignment in `CheckGameCompletion` is disabled
        in the source, and `ResetAllBurstPoints` clears the flag. */
    ghost predicate Valid()
      reads this`burstPointStates, this`currentActiveBurstPoint, this`burstActiveTimer, this`gameCompleted
    {
      && !gameCompleted
      && burstSystems.Keys == pointSet
      && burstPointStates.Keys == pointSet
      && (forall p :: p in burstPointStates ==> burstPointStates[p].Valid())
      && (currentActiveBurstPoint.Some? ==> currentActiveBurstPoint.value in pointSet)
      && burstActiveTimer >= 0.0
    }

    ghost predicate AllCompleted()
      reads this`burstPointStates
    {
      forall p :: p in burstPointStates ==> burstPointStates[p].completed
    }

    ghost predicate AnyEmitting()
      reads emitters
    {
      exists s :: s in emitters && s.IsEmitting()
    }

    ghost function ExposureState(): Exposure
      reads this`burstActiveTimer, this`currentBurstParameter
    {
      Exposure(burstActiveTimer, currentBurstParameter)
    }

    ghost function TrainingState(): TrainingSetup
      reads this`trainingBurstPointIndex, this`trainingBurstPoint, this`showBurstVisualization,
            this`currentTrainingIteration
    {
      TrainingSetup(trainingBurstPointIndex, trainingBurstPoint, showBurstVisualization, currentTrainingIteration)
    }

    /** The point a held button works on: the active point while it still
        touches, otherwise the first touching point in list order. */
    ghost function Selected(active: Option<ObjectId>): Option<ObjectId>
      reads this`burstPointStates
      requires forall p :: p in burstPoints ==> p in burstPointStates
    {
      if active.Some? && active.value in burstPointStates && burstPointStates[active.value].touching then active
      else FirstTouching(burstPoints, burstPointStates)
    }

    /** An emitter's state after `HandleBurstInput`: stopped, and started
        again when it belongs to the point selected with the button down. */
    function InputEmission(s: TrailBurst, e: Emission, isButtonPressed: bool, a: Option<ObjectId>): Emission
    {
      if isButtonPressed && a.Some? && a.value in burstSystems && s == burstSystems[a.value] then e.Stopped().Started()
      else e.Stopped()
    }

    /** The bookkeeping `HandleBurstInput` leaves: with the button up every
        incomplete point loses its hold time; with it down only the selected
        point takes a held frame. */
    twostate predicate PointsHandled(isButtonPressed: bool, dt: real)
      requires old(Valid())
      reads this`burstPointStates
    {
      var a := old(Selected(currentActiveBurstPoint));
      && burstPointStates.Keys == old(burstPointStates).Keys
      && forall q :: q in burstPointStates ==>
           burstPointStates[q] ==
             if !isButtonPressed then old(burstPointStates)[q].Released()
             else if a == Some(q) then old(burstPointStates)[q].Held(dt, requiredHoldTime)
             else old(burstPointStates)[q]
    }

    /** The whole new state `HandleBurstInput` leaves: the bookkeeping of
        `PointsHandled`, the selected point active with the button down and
        none with it up, and every emitter as `InputEmission` says. */
    twostate predicate InputHandled(isButtonPressed: bool, dt: real)
      requires old(Valid())
      reads this`burstPointStates, this`currentActiveBurstPoint, emitters
    {
      var a := old(Selected(currentActiveBurstPoint));
      && PointsHandled(isButtonPressed, dt)
      && currentActiveBurstPoint == (if isButtonPressed then a else None)
      && forall s :: s in emitters ==> s.State() == InputEmission(s, old(s.State()), isButtonPressed, a)
    }

    /** `TrainingModeRoutine` enters its loop: iterations are left (or it
        loops for ever), the mode is training and there is a training
        point. */
    predicate RoutineRuns(mode: OperationMode, iteration: int, point: Option<ObjectId>)
    {
      (loopTrainingInfinitely || iteration < trainingIterations) && mode == Training && point.Some?
    }

    /** The routine finds the training point's emitter and bursts it. */
    predicate RoutineBursts(runs: bool, point: Option<ObjectId>)
    {
      runs && point.Some? && point.value in burstSystems
    }

    /** The iteration count after the routine's first pass. */
    function RoutineIteration(runs: bool, iteration: int): int
    {
      if runs && !loopTrainingInfinitely then iteration + 1 else iteration
    }

    /** An emitter's state after the routine's first pass: the training
        point's emitter is started, and stopped again at once when a
        training burst has no duration. */
    function RoutineEmission(s: TrailBurst, e: Emission, runs: bool, point: Option<ObjectId>): Emission
    {
      if RoutineBursts(runs, point) && s == burstSystems[point.value] then
        (if trainingBurstDuration > 0.0 then e.Started() else e.Started().Stopped())
      else e
    }

    /** The exposure after the routine's first pass: one step at the
        training rate while a training burst lasts. */
    function RoutineExposure(x: Exposure, runs: bool, point: Option<ObjectId>, dt: real): Exposure
      requires x.activeTime >= 0.0 && dt >= 0.0
    {
      if RoutineBursts(runs, point) && trainingBurstDuration > 0.0 then ExposureStep(x, true, dt, TrainingRate) else x
    }

    /** The effect of the V, M and R keys on the mode and the training
        fields: V flips the visualization, M toggles the mode and sets it up
        (running the routine's first pass when it enters training), and R in
        training mode restarts the count and runs the first pass again. */
    function Keys(mode: OperationMode, t: TrainingSetup, keyV: bool, keyM: bool, keyR: bool): KeyPlan
    {
      var t1 := if keyV then t.(visible := !t.visible) else t;
      var m := if keyM then Toggled(mode) else mode;
      var setup := ModeSetup(m, burstPoints, t1);
      var modeRuns := keyM && m == Training && |burstPoints| > 0 && RoutineRuns(m, setup.iteration, setup.point);
      var t2 := if keyM then setup.(iteration := RoutineIteration(modeRuns, setup.iteration)) else t1;
      var restart := keyR && m == Training;
      var restartRuns := restart && RoutineRuns(Training, 0, t2.point);
      var t3 := if restart then t2.(iteration := RoutineIteration(restartRuns, 0)) else t2;
      KeyPlan(keyM, m, t2, modeRuns, restart, restartRuns, t3)
    }

    /** The exposure after the keys: one routine pass for M, another for R. */
    function KeysExposure(k: KeyPlan, x: Exposure, dt: real): Exposure
      requires x.activeTime >= 0.0 && dt >= 0.0
    {
      var x1 := if k.toggled then RoutineExposure(x, k.modeRuns, k.afterMode.point, dt) else x;
      if k.restart then RoutineExposure(x1, k.restartRuns, k.afterMode.point, dt) else x1
    }

    /** An emitter's state after the keys: M and R each stop every emitter
        before their routine pass. */
    function KeysEmission(s: TrailBurst, k: KeyPlan, e: Emission): Emission
    {
      var e1 := if k.toggled then RoutineEmission(s, e.Stopped(), k.modeRuns, k.afterMode.point) else e;
      if k.restart then RoutineEmission(s, e1.Stopped(), k.restartRuns, k.afterMode.point) else e1
    }

    /** Every emitter was stopped. */
    twostate predicate AllStopped()
      reads emitters
    {
      forall s :: s in emitters ==> s.State() == old(s.State()).Stopped()
    }

    /** No contact was gained or lost and no point lost its completion. */
    twostate predicate ContactsKept()
      reads this`burstPointStates
    {
      && burstPointStates.Keys == old(burstPointStates).Keys
      && forall q :: q in burstPointStates ==>
           && burstPointStates[q].collisionCount == old(burstPointStates)[q].collisionCount
           && (old(burstPointStates)[q].completed ==> burstPointStates[q].completed)
    }

    /** The effect of a contact starting on `burstPoint`: a null or unknown
        object changes nothing. */
    twostate predicate EnterApplied(burstPoint: Option<ObjectId>)
      reads this`burstPointStates
    {
      if burstPoint.Some? && burstPoint.value in burstPoints && burstPoint.value in old(burstPointStates) then
        burstPointStates == old(burstPointStates)[burstPoint.value := old(burstPointStates)[burstPoint.value].Entered()]
      else
        burstPointStates == old(burstPointStates)
    }

    /** The effect of a contact ending on `burstPoint`: its count drops
        (never below 0); if it was the active point and lost its last
        contact it is no longer active, and unless it was completed its
        emitter stops and its hold time resets. A null or unknown object
        changes nothing. */
    twostate predicate ExitApplied(burstPoint: Option<ObjectId>)
      reads this`burstPointStates, this`currentActiveBurstPoint, emitters
    {
      if burstPoint.Some? && burstPoint.value in burstPoints && burstPoint.value in old(burstPointStates) then
        var p := burstPoint.value;
        var exited := old(burstPointStates)[p].Exited();
        var lost := old(currentActiveBurstPoint) == Some(p) && !exited.touching;
        var reset := lost && !exited.completed;
        && burstPointStates == old(burstPointStates)[p := if reset then exited.(holdTime := 0.0) else exited]
        && currentActiveBurstPoint == (if lost then None else old(currentActiveBurstPoint))
        && (forall s :: s in emitters ==>
              s.State() ==
                if reset && p in burstSystems && s == burstSystems[p] then old(s.State()).Stopped() else old(s.State()))
      else
        && burstPointStates == old(burstPointStates)
        && currentActiveBurstPoint == old(currentActiveBurstPoint)
        && (forall s :: s in emitters ==> s.State() == old(s.State()))
    }

    /** `Start`: one emitter per burst point (50 particles, force 10, spread
        5, mouse control off), fresh bookkeeping, the initial exposure
        parameter, the mode set up, and the environment at its base values.
        Setting up training mode with burst points starts the training
        routine, which runs its first pass before `Start` goes on: it counts
        the first iteration, starts the training point's emitter and takes
        one exposure step at the training rate with the frame's `dt`. */
    constructor Start(burstPoints: seq<ObjectId>, burstDuration: real, requiredHoldTime: real,
                      initialBurstParameter: real, baseWindSpeed: real, baseHumidity: real,
                      baseTemperature: real, parameterVariation: real, useVerySubtleChanges: bool,
                      trainingBurstDuration: real, trainingIterations: int, loopTrainingInfinitely: bool,
                      mode: OperationMode, trainingBurstPointIndex: int, showBurstVisualization: bool, dt: real)
      requires dt >= 0.0
      ensures Valid()
      ensures this.burstPoints == burstPoints && this.requiredHoldTime == requiredHoldTime
      ensures this.trainingBurstDuration == trainingBurstDuration && this.trainingIterations == trainingIterations
      ensures this.loopTrainingInfinitely == loopTrainingInfinitely
      ensures fresh(emitters)
      ensures forall s :: s in emitters ==> !s.useMouseControl && s.particleCount == 50 && s.particles == []
      ensures forall p :: p in burstPointStates ==> burstPointStates[p] == Fresh
      ensures currentActiveBurstPoint == None && currentMode == mode
      ensures var setup := ModeSetup(mode, burstPoints, TrainingSetup(trainingBurstPointIndex, None, showBurstVisualization, 0));
              var runs := mode == Training && |burstPoints| > 0 && RoutineRuns(mode, setup.iteration, setup.point);
              && TrainingState() == setup.(iteration := RoutineIteration(runs, setup.iteration))
              && ExposureState() == RoutineExposure(Exposure(0.0, initialBurstParameter), runs, setup.point, dt)
              && (forall s :: s in emitters ==>
                    s.State() == RoutineEmission(s, Emission(false, burstDuration, burstDuration), runs, setup.point))
      ensures currentWindSpeed == baseWindSpeed && currentHumidity == baseHumidity
      ensures currentTemperature == baseTemperature
    {
      var systems, states := CreateBurstSystems(burstPoints, burstDuration, 50);
      this.burstPoints := burstPoints;
      this.burstDuration := burstDuration;
      this.requiredHoldTime := requiredHoldTime;
      this.initialBurstParameter := initialBurstParameter;
      this.baseWindSpeed := baseWindSpeed;
      this.baseHumidity := baseHumidity;
      this.baseTemperature := baseTemperature;
      this.parameterVariation := parameterVariation;
      this.useVerySubtleChanges := useVerySubtleChanges;
      this.trainingBurstDuration := trainingBurstDuration;
      this.trainingIterations := trainingIterations;
      this.loopTrainingInfinitely := loopTrainingInfinitely;
      burstSystems := systems;
      burstPointStates := states;
      gameCompleted := false;
      currentMode := mode;
      touchingRequired := true;
      // `SetupOperationMode(currentMode)`: its stopping loop changes nothing
      // on the idle emitters just created.
      currentActiveBurstPoint := None;
      var setup := ModeSetup(mode, burstPoints, TrainingSetup(trainingBurstPointIndex, None, showBurstVisualization, 0));
      this.trainingBurstPointIndex := setup.index;
      trainingBurstPoint := setup.point;
      this.showBurstVisualization := setup.visible;
      // The first pass of `TrainingModeRoutine`, which `StartCoroutine` runs
      // up to its first `yield`.
      var iteration := setup.iteration;
      var timer := 0.0;
      var parameter := initialBurstParameter;
      if mode == Training && |burstPoints| > 0
         && (loopTrainingInfinitely || iteration < trainingIterations) && setup.point.Some? {
        if !loopTrainingInfinitely {
          iteration := iteration + 1;
        }
        var p := setup.point.value;
        if p in systems {
          systems[p].StartBursting();
          if trainingBurstDuration > 0.0 {
            timer := timer + dt;
            parameter := parameter + Increment(TrainingRate, timer);
          } else {
            systems[p].StopBursting();
          }
        }
      }
      currentTrainingIteration := iteration;
      burstActiveTimer := timer;
      currentBurstParameter := parameter;
      currentWindSpeed := baseWindSpeed;
      currentHumidity := baseHumidity;
      currentTemperature := baseTemperature;
    }

    /** `OnEnable` (its bookkeeping part): every contact is forgotten. The
        active point is left as it was. */
    method OnEnable()
      requires Valid()
      modifies this`burstPointStates
      ensures Valid()
      ensures forall p :: p in burstPointStates ==>
                burstPointStates[p] == old(burstPointStates)[p].(collisionCount := 0, touching := false)
    {
      var i := 0;
      while i < |burstPoints|
        invariant 0 <= i <= |burstPoints|
        invariant burstPointStates.Keys == old(burstPointStates).Keys
        invariant forall q :: q in burstPointStates ==>
                    burstPointStates[q] in {old(burstPointStates)[q],
                                            old(burstPointStates)[q].(collisionCount := 0, touching := false)}
        invariant forall j :: 0 <= j < i ==>
                    burstPointStates[burstPoints[j]] ==
                      old(burstPointStates)[burstPoints[j]].(collisionCount := 0, touching := false)
      {
        var p := burstPoints[i];
        burstPointStates := burstPointStates[p := burstPointStates[p].(collisionCount := 0, touching := false)];
        i := i + 1;
      }
    }

    /** `OnBurstPointCollisionEnter`. */
    method OnBurstPointCollisionEnter(burstPoint: Option<ObjectId>)
      requires Valid()
      modifies this`burstPointStates
      ensures Valid()
      ensures EnterApplied(burstPoint)
    {
      if burstPoint.None? || burstPoint.value !in burstPoints {
        return;
      }
      var p := burstPoint.value;
      burstPointStates := burstPointStates[p := burstPointStates[p].Entered()];
    }

    /** `OnBurstPointCollisionExit`. */
    method OnBurstPointCollisionExit(burstPoint: Option<ObjectId>)
      requires Valid()
      modifies this`burstPointStates, this`currentActiveBurstPoint, emitters`isBursting
      ensures Valid()
      ensures ExitApplied(burstPoint)
    {
      if burstPoint.None? || burstPoint.value !in burstPoints {
        return;
      }
      var p := burstPoint.value;
      var exited := burstPointStates[p].Exited();
      burstPointStates := burstPointStates[p := exited];
      if currentActiveBurstPoint == Some(p) && !exited.touching {
        if !exited.completed {
          burstSystems[p].StopBursting();
          burstPointStates := burstPointStates[p := exited.(holdTime := 0.0)];
        }
        currentActiveBurstPoint := None;
      }
    }

    /** `CheckCollisionWithBurstPoint`: looks the object up among the burst
        points and forwards the event; an object that is not a burst point
        changes nothing. */
    method CheckCollisionWithBurstPoint(collidedObject: ObjectId, isEntering: bool)
      requires Valid()
      modifies this`burstPointStates, this`currentActiveBurstPoint, emitters`isBursting
      ensures Valid()
      ensures isEntering ==>
                EnterApplied(Some(collidedObject)) && currentActiveBurstPoint == old(currentActiveBurstPoint) &&
                unchanged(emitters)
      ensures !isEntering ==> ExitApplied(Some(collidedObject))
    {
      var i := 0;
      while i < |burstPoints|
        invariant 0 <= i <= |burstPoints|
        invariant forall j :: 0 <= j < i ==> burstPoints[j] != collidedObject
      {
        if collidedObject == burstPoints[i] {
          if isEntering {
            OnBurstPointCollisionEnter(Some(burstPoints[i]));
          } else {
            OnBurstPointCollisionExit(Some(burstPoints[i]));
          }
          return;
        }
        i := i + 1;
      }
    }

    /** `OnTriggerEnter`: contacts only count in study mode. */
    method OnTriggerEnter(other: ObjectId)
      requires Valid()
      modifies this`burstPointStates, this`currentActiveBurstPoint, emitters`isBursting
      ensures Valid()
      ensures currentMode == Study ==> EnterApplied(Some(other))
      ensures currentMode != Study ==> burstPointStates == old(burstPointStates)
      ensures currentActiveBurstPoint == old(currentActiveBurstPoint) && unchanged(emitters)
    {
      if currentMode == Study {
        CheckCollisionWithBurstPoint(other, true);
      }
    }

    /** `OnTriggerExit`: contacts only count in study mode. */
    method OnTriggerExit(other: ObjectId)
      requires Valid()
      modifies this`burstPointStates, this`currentActiveBurstPoint, emitters`isBursting
      ensures Valid()
      ensures currentMode == Study ==> ExitApplied(Some(other))
      ensures currentMode != Study ==>
                && burstPointStates == old(burstPointStates)
                && currentActiveBurstPoint == old(currentActiveBurstPoint)
                && unchanged(emitters)
    {
      if currentMode == Study {
        CheckCollisionWithBurstPoint(other, false);
      }
    }

    /** Stops every emitter (the loop that opens `HandleBurstInput`,
        `SetupOperationMode`, `RestartTraining` and
        `ToggleTouchingRequirement`). */
    method StopAllBurstSystems()
      modifies emitters`isBursting
      ensures AllStopped()
    {
      var rest := burstSystems.Values;
      while rest != {}
        invariant rest <= emitters
        invariant forall s :: s in emitters - rest ==> s.State() == old(s.State()).Stopped()
        invariant forall s :: s in rest ==> s.State() == old(s.State())
        decreases rest
      {
        var s :| s in rest;
        s.StopBursting();
        rest := rest - {s};
      }
    }

    /** With the button up, every incomplete point loses its hold time. */
    method ReleaseHoldTimes()
      requires Valid()
      modifies this`burstPointStates
      ensures Valid()
      ensures forall q :: q in burstPointStates ==> burstPointStates[q] == old(burstPointStates)[q].Released()
    {
      var i := 0;
      while i < |burstPoints|
        invariant 0 <= i <= |burstPoints|
        invariant burstPointStates.Keys == old(burstPointStates).Keys
        invariant forall q :: q in burstPointStates ==>
                    burstPointStates[q] in {old(burstPointStates)[q], old(burstPointStates)[q].Released()}
        invariant forall j :: 0 <= j < i ==>
                    burstPointStates[burstPoints[j]] == old(burstPointStates)[burstPoints[j]].Released()
      {
        var p := burstPoints[i];
        if !burstPointStates[p].completed {
          burstPointStates := burstPointStates[p := burstPointStates[p].(holdTime := 0.0)];
        }
        i := i + 1;
      }
    }

    /** The search loop of `HandleBurstInput`: the first touching point in
        list order. */
    method FindFirstTouching() returns (found: Option<ObjectId>)
      requires forall p :: p in burstPoints ==> p in burstPointStates
      ensures found == FirstTouching(burstPoints, burstPointStates)
      ensures found.Some? ==> found.value in burstPoints && burstPointStates[found.value].touching
    {
      var i := 0;
      while i < |burstPoints|
        invariant 0 <= i <= |burstPoints|
        invariant FirstTouchingFrom(burstPoints, burstPointStates, i) == FirstTouching(burstPoints, burstPointStates)
      {
        if burstPointStates[burstPoints[i]].touching {
          return Some(burstPoints[i]);
        }
        i := i + 1;
      }
      return None;
    }

    /** `CheckGameCompletion`: whether every burst point is completed, in
        which case the source asks the editor to leave play mode. The flag
        `gameCompleted` is not set (that assignment is disabled in the
        source), so the request repeats on every frame. */
    method CheckGameCompletion() returns (allCompleted: bool)
      ensures allCompleted <==> AllCompleted()
    {
      allCompleted := true;
      var rest := burstPointStates.Keys;
      while rest != {}
        invariant rest <= burstPointStates.Keys
        invariant allCompleted <==> forall p :: p in burstPointStates.Keys - rest ==> burstPointStates[p].completed
        decreases rest
      {
        var p :| p in rest;
        if !burstPointStates[p].completed {
          allCompleted := false;
        }
        rest := rest - {p};
      }
    }

    /** The selection step of `HandleBurstInput` with the button down: an
        active point that no longer touches is dropped, and without an
        active point the first touching one is taken. */
    method SelectActivePoint()
      requires Valid()
      modifies this`currentActiveBurstPoint
      ensures Valid()
      ensures currentActiveBurstPoint == Selected(old(currentActiveBurstPoint))
      ensures currentActiveBurstPoint.Some? ==> burstPointStates[currentActiveBurstPoint.value].touching
    {
      if currentActiveBurstPoint.Some? && !burstPointStates[currentActiveBurstPoint.value].touching {
        currentActiveBurstPoint := None;
      }
      if currentActiveBurstPoint.None? {
        currentActiveBurstPoint := FindFirstTouching();
      }
    }

    /** The processing step of `HandleBurstInput` for a touching active
        point: its emitter starts whether or not the point is completed; an
        incomplete point takes one held frame, and completing it checks for
        the end of the game. */
    method HoldActivePoint(dt: real) returns (stopRequested: bool)
      requires Valid() && dt >= 0.0 && currentActiveBurstPoint.Some?
      modifies this`burstPointStates, emitters`isBursting, emitters`emissionTimer
      ensures Valid()
      ensures var p := currentActiveBurstPoint.value;
              && burstPointStates == old(burstPointStates)[p := old(burstPointStates)[p].Held(dt, requiredHoldTime)]
              && (forall s :: s in emitters ==>
                    s.State() == if s == burstSystems[p] then old(s.State()).Started() else old(s.State()))
              && (stopRequested <==> !old(burstPointStates)[p].completed && AllCompleted())
      ensures ContactsKept()
    {
      stopRequested := false;
      var p := currentActiveBurstPoint.value;
      burstSystems[p].StartBursting();
      if !burstPointStates[p].completed {
        var h := burstPointStates[p].holdTime + dt;
        burstPointStates := burstPointStates[p := burstPointStates[p].(holdTime := h)];
        if h >= requiredHoldTime {
          burstPointStates := burstPointStates[p := burstPointStates[p].(completed := true)];
          stopRequested := CheckGameCompletion();
        }
      }
    }

    /** `HandleBurstInput` with the button up: every emitter stops,
        incomplete points lose their hold time and no point is active. */
    method ReleasedFrame()
      requires Valid()
      modifies this`burstPointStates, this`currentActiveBurstPoint, emitters`isBursting
      ensures Valid()
      ensures currentActiveBurstPoint == None && AllStopped()
      ensures forall q :: q in burstPointStates ==> burstPointStates[q] == old(burstPointStates)[q].Released()
      ensures forall s :: s in emitters ==> !s.isBursting
      ensures ContactsKept()
    {
      StopAllBurstSystems();
      ReleaseHoldTimes();
      currentActiveBurstPoint := None;
    }

    /** Selection and processing of the active point with the button down
        (`HandleBurstInput` after its stopping loop): only the selected
        point's emitter is started, and only that point takes a held frame. */
    method SelectAndHold(dt: real) returns (stopRequested: bool)
      requires Valid() && dt >= 0.0
      modifies this`burstPointStates, this`currentActiveBurstPoint,
               emitters`isBursting, emitters`emissionTimer
      ensures Valid()
      ensures var a := old(Selected(currentActiveBurstPoint));
              && currentActiveBurstPoint == a
              && (forall s :: s in emitters ==>
                    s.State() == if a.Some? && s == burstSystems[a.value] then old(s.State()).Started() else old(s.State()))
              && (forall q :: q in burstPointStates ==>
                    burstPointStates[q] ==
                      if a == Some(q) then old(burstPointStates)[q].Held(dt, requiredHoldTime) else old(burstPointStates)[q])
              && (stopRequested <==> a.Some? && !old(burstPointStates)[a.value].completed && AllCompleted())
      ensures ContactsKept()
    {
      stopRequested := false;
      SelectActivePoint();
      if currentActiveBurstPoint.Some? && burstPointStates[currentActiveBurstPoint.value].touching {
        stopRequested := HoldActivePoint(dt);
      }
    }

    /** `HandleBurstInput` with the button down: every emitter stops; the
        active point is kept while it touches and otherwise replaced by the
        first touching point; only that point's emitter is started, and it
        takes one held frame. */
    method PressedFrame(dt: real) returns (stopRequested: bool)
      requires Valid() && dt >= 0.0
      modifies this`burstPointStates, this`currentActiveBurstPoint,
               emitters`isBursting, emitters`emissionTimer
      ensures Valid()
      ensures var a := old(Selected(currentActiveBurstPoint));
              && currentActiveBurstPoint == a
              && (forall s :: s in emitters ==>
                    s.State() ==
                      if a.Some? && s == burstSystems[a.value] then old(s.State()).Stopped().Started()
                      else old(s.State()).Stopped())
              && (forall q :: q in burstPointStates ==>
                    burstPointStates[q] ==
                      if a == Some(q) then old(burstPointStates)[q].Held(dt, requiredHoldTime) else old(burstPointStates)[q])
              && (stopRequested <==> a.Some? && !old(burstPointStates)[a.value].completed && AllCompleted())
      ensures forall s :: s in emitters && s.isBursting ==>
                currentActiveBurstPoint.Some? && s == burstSystems[currentActiveBurstPoint.value]
      ensures ContactsKept()
    {
      StopAllBurstSystems();
      stopRequested := SelectAndHold(dt);
    }

    /** `HandleBurstInput` for one frame of `dt` seconds with the burst
        button up or down (see `ReleasedFrame` and `PressedFrame`); every
        emitter is stopped first. `stopRequested` reports that this frame
        completed the last point. Afterwards at most the active point's
        emitter is bursting. */
    method HandleBurstInput(isButtonPressed: bool, dt: real) returns (stopRequested: bool)
      requires Valid() && dt >= 0.0
      modifies this`burstPointStates, this`currentActiveBurstPoint,
               emitters`isBursting, emitters`emissionTimer
      ensures Valid()
      ensures InputHandled(isButtonPressed, dt)
      ensures !isButtonPressed ==> !stopRequested && AllStopped()
      ensures isButtonPressed ==>
                var a := old(Selected(currentActiveBurstPoint));
                (stopRequested <==> a.Some? && !old(burstPointStates)[a.value].completed && AllCompleted())
      ensures forall s :: s in emitters && s.isBursting ==>
                currentActiveBurstPoint.Some? && s == burstSystems[currentActiveBurstPoint.value]
      ensures ContactsKept()
    {
      if isButtonPressed {
        stopRequested := PressedFrame(dt);
      } else {
        ReleasedFrame();
        stopRequested := false;
      }
    }

    /** Whether some emitter is emitting (the search loop of
        `UpdateBurstParameter`). */
    method AnyBurstSystemEmitting() returns (anyBursting: bool)
      ensures anyBursting <==> AnyEmitting()
    {
      var rest := burstSystems.Values;
      while rest != {}
        invariant rest <= emitters
        invariant forall s :: s in emitters - rest ==> !s.IsEmitting()
        decreases rest
      {
        var s :| s in rest;
        if s.IsEmitting() {
          return true;
        }
        rest := rest - {s};
      }
      return false;
    }

    /** `UpdateBurstParameter`: one exposure step at rate 0.01. */
    method UpdateBurstParameter(dt: real)
      requires Valid() && dt >= 0.0
      modifies this`burstActiveTimer, this`currentBurstParameter
      ensures Valid()
      ensures ExposureState() == ExposureStep(old(ExposureState()), AnyEmitting(), dt, ExposureRate)
    {
      var anyBursting := AnyBurstSystemEmitting();
      if anyBursting {
        burstActiveTimer := burstActiveTimer + dt;
        currentBurstParameter := currentBurstParameter + Increment(ExposureRate, burstActiveTimer);
      } else {
        burstActiveTimer := 0.0;
      }
    }

    /** `UpdateEnvironmentParameters` with the three random draws as inputs:
        subtle drift clamped to bands of 0.3, 0.1 and 0.2 around the base
        values, or a fresh value around each base. */
    method UpdateEnvironmentParameters(windDraw: real, humidityDraw: real, temperatureDraw: real)
      modifies this`currentWindSpeed, this`currentHumidity, this`currentTemperature
      ensures useVerySubtleChanges ==>
                && currentWindSpeed == Drift(old(currentWindSpeed), baseWindSpeed, windDraw, WindBand)
                && currentHumidity == Drift(old(currentHumidity), baseHumidity, humidityDraw, HumidityBand)
                && currentTemperature == Drift(old(currentTemperature), baseTemperature, temperatureDraw, TemperatureBand)
      ensures useVerySubtleChanges ==>
                && baseWindSpeed - 0.3 <= currentWindSpeed <= baseWindSpeed + 0.3
                && baseHumidity - 0.1 <= currentHumidity <= baseHumidity + 0.1
                && baseTemperature - 0.2 <= currentTemperature <= baseTemperature + 0.2
      ensures !useVerySubtleChanges ==>
                && currentWindSpeed == Resampled(baseWindSpeed, windDraw)
                && currentHumidity == Resampled(baseHumidity, humidityDraw)
                && currentTemperature == Resampled(baseTemperature, temperatureDraw)
    {
      if useVerySubtleChanges {
        currentWindSpeed := currentWindSpeed + windDraw;
        currentHumidity := currentHumidity + humidityDraw;
        currentTemperature := currentTemperature + temperatureDraw;
        currentWindSpeed := Clamp(currentWindSpeed, baseWindSpeed - WindBand, baseWindSpeed + WindBand);
        currentHumidity := Clamp(currentHumidity, baseHumidity - HumidityBand, baseHumidity + HumidityBand);
        currentTemperature := Clamp(currentTemperature, baseTemperature - TemperatureBand, baseTemperature + TemperatureBand);
      } else {
        currentWindSpeed := baseWindSpeed + windDraw * baseWindSpeed;
        currentHumidity := baseHumidity + humidityDraw * baseHumidity;
        currentTemperature := baseTemperature + temperatureDraw * baseTemperature;
      }
    }

    /** `SetBurstVisualization`: records the flag (moving the emitters is
        engine work). */
    method SetBurstVisualization(isVisible: bool)
      modifies this`showBurstVisualization
      ensures showBurstVisualization == isVisible
    {
      showBurstVisualization := isVisible;
    }

    method ToggleBurstVisualization()
      modifies this`showBurstVisualization
      ensures showBurstVisualization == !old(showBurstVisualization)
    {
      SetBurstVisualization(!showBurstVisualization);
    }

    /** The bookkeeping loop of `ResetAllBurstPoints`. */
    method ResetPointStates()
      requires Valid()
      modifies this`burstPointStates
      ensures Valid()
      ensures forall q :: q in burstPointStates ==> burstPointStates[q] == Fresh
    {
      var i := 0;
      while i < |burstPoints|
        invariant 0 <= i <= |burstPoints|
        invariant burstPointStates.Keys == old(burstPointStates).Keys
        invariant forall q :: q in burstPointStates ==> burstPointStates[q] in {old(burstPointStates)[q], Fresh}
        invariant forall j :: 0 <= j < i ==> burstPointStates[burstPoints[j]] == Fresh
      {
        burstPointStates := burstPointStates[burstPoints[i] := Fresh];
        i := i + 1;
      }
    }

    /** `ResetAllBurstPoints`: every point back to fresh bookkeeping with its
        emitter stopped; exposure back to its initial value; no active
        point. */
    method ResetAllBurstPoints()
      requires Valid()
      modifies this`burstPointStates, this`gameCompleted, this`burstActiveTimer,
               this`currentBurstParameter, this`currentActiveBurstPoint, emitters`isBursting
      ensures Valid()
      ensures forall q :: q in burstPointStates ==> burstPointStates[q] == Fresh
      ensures AllStopped()
      ensures !gameCompleted && currentActiveBurstPoint == None
      ensures ExposureState() == Exposure(0.0, initialBurstParameter)
    {
      ResetPointStates();
      StopAllBurstSystems();
      gameCompleted := false;
      burstActiveTimer := 0.0;
      currentBurstParameter := initialBurstParameter;
      currentActiveBurstPoint := None;
    }

    /** The hold-time loop of `ToggleTouchingRequirement`: completed points
        are zeroed too. */
    method ZeroHoldTimes()
      requires Valid()
      modifies this`burstPointStates
      ensures Valid()
      ensures forall q :: q in burstPointStates ==> burstPointStates[q] == old(burstPointStates)[q].(holdTime := 0.0)
    {
      var i := 0;
      while i < |burstPoints|
        invariant 0 <= i <= |burstPoints|
        invariant burstPointStates.Keys == old(burstPointStates).Keys
        invariant forall q :: q in burstPointStates ==>
                    burstPointStates[q] in {old(burstPointStates)[q], old(burstPointStates)[q].(holdTime := 0.0)}
        invariant forall j :: 0 <= j < i ==>
                    burstPointStates[burstPoints[j]] == old(burstPointStates)[burstPoints[j]].(holdTime := 0.0)
      {
        var p := burstPoints[i];
        burstPointStates := burstPointStates[p := burstPointStates[p].(holdTime := 0.0)];
        i := i + 1;
      }
    }

    /** `ToggleTouchingRequirement`: touching stays required; every emitter
        stops, every hold time (completed points included) is zeroed, and no
        point is active. */
    method ToggleTouchingRequirement()
      requires Valid()
      modifies this`touchingRequired, this`burstPointStates, this`currentActiveBurstPoint,
               emitters`isBursting
      ensures Valid()
      ensures touchingRequired && currentActiveBurstPoint == None
      ensures forall q :: q in burstPointStates ==> burstPointStates[q] == old(burstPointStates)[q].(holdTime := 0.0)
      ensures AllStopped()
    {
      touchingRequired := true;
      StopAllBurstSystems();
      ZeroHoldTimes();
      currentActiveBurstPoint := None;
    }

    /** The first pass of `TrainingModeRoutine`, which `StartCoroutine` runs
        before returning, up to its first `yield`. When the routine enters its
        loop it counts an iteration (unless it loops for ever) and starts the
        training point's emitter; while a training burst lasts it takes one
        exposure step at the training rate and yields, otherwise it stops the
        emitter again at once and yields in its wait. The count never passes
        `trainingIterations`, so the routine's early exit is not taken here. */
    method EnterTrainingRoutine(dt: real)
      requires Valid() && dt >= 0.0
      modifies this`currentTrainingIteration, this`burstActiveTimer, this`currentBurstParameter,
               emitters`isBursting, emitters`emissionTimer
      ensures Valid()
      ensures var runs := RoutineRuns(currentMode, old(currentTrainingIteration), trainingBurstPoint);
              && currentTrainingIteration == RoutineIteration(runs, old(currentTrainingIteration))
              && ExposureState() == RoutineExposure(old(ExposureState()), runs, trainingBurstPoint, dt)
              && (forall s :: s in emitters ==> s.State() == RoutineEmission(s, old(s.State()), runs, trainingBurstPoint))
              && (runs && !loopTrainingInfinitely ==> currentTrainingIteration <= trainingIterations)
    {
      if (loopTrainingInfinitely || currentTrainingIteration < trainingIterations) &&
         currentMode == Training && trainingBurstPoint.Some? {
        if !loopTrainingInfinitely {
          currentTrainingIteration := currentTrainingIteration + 1;
        }
        var p := trainingBurstPoint.value;
        if p in burstSystems {
          burstSystems[p].StartBursting();
          if trainingBurstDuration > 0.0 {
            burstActiveTimer := burstActiveTimer + dt;
            currentBurstParameter := currentBurstParameter + Increment(TrainingRate, burstActiveTimer);
          } else {
            burstSystems[p].StopBursting();
          }
        }
      }
    }

    /** `SetupOperationMode`: every emitter stops, no point is active, and
        the training fields are set up as `ModeSetup` says. Training mode
        with burst points then starts the training routine, whose first pass
        runs at once. Hold times and completion are untouched. */
    method SetupOperationMode(mode: OperationMode, dt: real)
      requires Valid() && dt >= 0.0
      modifies this`currentActiveBurstPoint, this`trainingBurstPointIndex, this`trainingBurstPoint,
               this`showBurstVisualization, this`currentTrainingIteration, this`burstActiveTimer,
               this`currentBurstParameter, emitters`isBursting, emitters`emissionTimer
      ensures Valid()
      ensures currentActiveBurstPoint == None
      ensures var setup := ModeSetup(mode, burstPoints, old(TrainingState()));
              var runs := mode == Training && |burstPoints| > 0 && RoutineRuns(currentMode, setup.iteration, setup.point);
              && TrainingState() == setup.(iteration := RoutineIteration(runs, setup.iteration))
              && ExposureState() == RoutineExposure(old(ExposureState()), runs, setup.point, dt)
              && (forall s :: s in emitters ==> s.State() == RoutineEmission(s, old(s.State()).Stopped(), runs, setup.point))
    {
      StopAllBurstSystems();
      currentActiveBurstPoint := None;
      if mode == Training {
        trainingBurstPointIndex := ClampInt(trainingBurstPointIndex, 0, |burstPoints| - 1);
        if |burstPoints| > 0 {
          trainingBurstPoint := Some(burstPoints[trainingBurstPointIndex]);
          SetBurstVisualization(true);
          currentTrainingIteration := 0;
          EnterTrainingRoutine(dt);
        }
      } else {
        SetBurstVisualization(false);
        trainingBurstPoint := None;
      }
    }

    /** `ToggleOperationMode`: switches the mode and sets it up. */
    method ToggleOperationMode(dt: real)
      requires Valid() && dt >= 0.0
      modifies this`currentMode, this`currentActiveBurstPoint, this`trainingBurstPointIndex, this`trainingBurstPoint,
               this`showBurstVisualization, this`currentTrainingIteration, this`burstActiveTimer,
               this`currentBurstParameter, emitters`isBursting, emitters`emissionTimer
      ensures Valid()
      ensures currentMode == Toggled(old(currentMode)) && currentActiveBurstPoint == None
      ensures var setup := ModeSetup(currentMode, burstPoints, old(TrainingState()));
              var runs := currentMode == Training && |burstPoints| > 0 && RoutineRuns(currentMode, setup.iteration, setup.point);
              && TrainingState() == setup.(iteration := RoutineIteration(runs, setup.iteration))
              && ExposureState() == RoutineExposure(old(ExposureState()), runs, setup.point, dt)
              && (forall s :: s in emitters ==> s.State() == RoutineEmission(s, old(s.State()).Stopped(), runs, setup.point))
      ensures currentMode == Study ==> !showBurstVisualization && trainingBurstPoint == None
      ensures currentMode == Training && |burstPoints| > 0 ==>
                showBurstVisualization && trainingBurstPoint.Some? && trainingBurstPoint.value in burstPoints
    {
      currentMode := Toggled(currentMode);
      SetupOperationMode(currentMode, dt);
    }

    /** `RestartTraining`: in training mode every emitter stops, the
        iteration count restarts and the training routine is started again,
        running its first pass at once; in study mode nothing happens. */
    method RestartTraining(dt: real)
      requires Valid() && dt >= 0.0
      modifies this`currentTrainingIteration, this`burstActiveTimer, this`currentBurstParameter,
               emitters`isBursting, emitters`emissionTimer
      ensures Valid()
      ensures currentMode == Training ==>
                var runs := RoutineRuns(Training, 0, trainingBurstPoint);
                && currentTrainingIteration == RoutineIteration(runs, 0)
                && ExposureState() == RoutineExposure(old(ExposureState()), runs, trainingBurstPoint, dt)
                && (forall s :: s in emitters ==> s.State() == RoutineEmission(s, old(s.State()).Stopped(), runs, trainingBurstPoint))
      ensures currentMode == Study ==>
                && currentTrainingIteration == old(currentTrainingIteration) && ExposureState() == old(ExposureState())
                && unchanged(emitters)
    {
      if currentMode == Training {
        StopAllBurstSystems();
        currentTrainingIteration := 0;
        EnterTrainingRoutine(dt);
      }
    }

    /** The study-mode part of `Update`: the input is handled, the exposure
        takes one step driven by whether an emitter is emitting once the
        input is handled, and the completion check's answer is returned. */
    method StudyFrame(dt: real, isButtonPressed: bool) returns (stopRequested: bool)
      requires Valid() && dt >= 0.0
      modifies this`burstPointStates, this`currentActiveBurstPoint, this`burstActiveTimer,
               this`currentBurstParameter, emitters`isBursting, emitters`emissionTimer
      ensures Valid()
      ensures InputHandled(isButtonPressed, dt)
      ensures ExposureState() == ExposureStep(old(ExposureState()), AnyEmitting(), dt, ExposureRate)
      ensures !isButtonPressed ==> ExposureState() == Exposure(0.0, old(currentBurstParameter))
      ensures stopRequested <==> AllCompleted()
      ensures ContactsKept()
    {
      var lastCompleted := HandleBurstInput(isButtonPressed, dt);
      label handled:
      UpdateBurstParameter(dt);
      assert unchanged@handled(emitters, this`burstPointStates, this`currentActiveBurstPoint);
      stopRequested := CheckGameCompletion();
    }

    /** The key part of `Update`: V toggles the visualization, M the mode,
        and R restarts training in training mode (after M has switched the
        mode). */
    method HandleKeys(keyV: bool, keyM: bool, keyR: bool, dt: real)
      requires Valid() && dt >= 0.0
      modifies this`currentActiveBurstPoint, this`currentMode, this`trainingBurstPointIndex,
               this`trainingBurstPoint, this`showBurstVisualization, this`currentTrainingIteration,
               this`burstActiveTimer, this`currentBurstParameter, emitters`isBursting, emitters`emissionTimer
      ensures Valid()
      ensures currentMode == if keyM then Toggled(old(currentMode)) else old(currentMode)
      ensures currentActiveBurstPoint == if keyM then None else old(currentActiveBurstPoint)
      ensures TrainingState() == Keys(old(currentMode), old(TrainingState()), keyV, keyM, keyR).training
      ensures ExposureState() ==
                KeysExposure(Keys(old(currentMode), old(TrainingState()), keyV, keyM, keyR), old(ExposureState()), dt)
      ensures forall s :: s in emitters ==>
                s.State() == KeysEmission(s, Keys(old(currentMode), old(TrainingState()), keyV, keyM, keyR), old(s.State()))
    {
      if keyV {
        ToggleBurstVisualization();
      }
      if keyM {
        ToggleOperationMode(dt);
      }
      if keyR && currentMode == Training {
        RestartTraining(dt);
      }
    }

    /** One frame of `Update` in active-drilling construction, with the
        button and the V, M and R keys as inputs. In study mode the input is
        handled, the exposure updated and completion checked; the result is
        that check's request to leave play mode, which therefore repeats on
        every study frame once all points are completed. The keys then act
        on the state the study frame left. The early return for a completed
        game is never taken, because `Valid` keeps `gameCompleted` false. */
    method Update(dt: real, isButtonPressed: bool, keyV: bool, keyM: bool, keyR: bool)
      returns (stopRequested: bool)
      requires Valid() && dt >= 0.0
      modifies this`burstPointStates, this`currentActiveBurstPoint, this`burstActiveTimer,
               this`currentBurstParameter, this`currentMode, this`trainingBurstPointIndex,
               this`trainingBurstPoint, this`showBurstVisualization, this`currentTrainingIteration,
               emitters`isBursting, emitters`emissionTimer
      ensures Valid()
      ensures ContactsKept()
      ensures var k := Keys(old(currentMode), old(TrainingState()), keyV, keyM, keyR);
              && currentMode == k.mode && TrainingState() == k.training
      ensures old(currentMode) == Training ==>
                var k := Keys(Training, old(TrainingState()), keyV, keyM, keyR);
                && burstPointStates == old(burstPointStates) && !stopRequested
                && currentActiveBurstPoint == (if keyM then None else old(currentActiveBurstPoint))
                && ExposureState() == KeysExposure(k, old(ExposureState()), dt)
                && (forall s :: s in emitters ==> s.State() == KeysEmission(s, k, old(s.State())))
      ensures old(currentMode) == Study ==>
                var k := Keys(Study, old(TrainingState()), keyV, keyM, keyR);
                var a := old(Selected(currentActiveBurstPoint));
                var emits := exists s :: s in emitters && InputEmission(s, old(s.State()), isButtonPressed, a).Emitting();
                && PointsHandled(isButtonPressed, dt)
                && (stopRequested <==> AllCompleted())
                && currentActiveBurstPoint == (if keyM || !isButtonPressed then None else a)
                && ExposureState() == KeysExposure(k, ExposureStep(old(ExposureState()), emits, dt, ExposureRate), dt)
                && (forall s :: s in emitters ==> s.State() == KeysEmission(s, k, InputEmission(s, old(s.State()), isButtonPressed, a)))
    {
      stopRequested := false;
      if currentMode == Study {
        stopRequested := StudyFrame(dt, isButtonPressed);
      }
      HandleKeys(keyV, keyM, keyR, dt);
    }
  }
}
