# PM2.5 drilling study: a Dafny model of its state machines

This project models the parts of a Unity VR study app about drilling dust (PM2.5) that behave as
sequential state machines or bookkeeping structures. The engine calls are replaced by parameters:
the frame time, button and key states, collision events, the engine clock and every random draw.
Times, angles and positions are `real`.

- **Touch-and-hold burst controllers.** `UserStudyInterface` (module `UserStudy`) and the earlier
  `BurstControl` (module `BurstController`) each keep four pieces of bookkeeping per burst point.
  They are a contact count, a touching flag, a hold time and a completed flag, modelled as one
  `PointState` record per point. Each point owns one `TrailBurst` emitter.
  - A held button selects one active point: the active point while it still touches, otherwise the
    first touching point in list order.
  - The controller starts that point's emitter only and accumulates its hold time until a one-way
    completion.
  - Both controllers also keep an exposure accumulator and a drifting environment.
  - The value-level rules the two share are in module `BurstRules`.
  - Module `BurstSetup` holds the loop that creates the emitters.
- **Burst emitter** (`PM25TrailBurst`, module `TrailBurst`).
  - An on/off flag and an emission countdown gate emission.
  - The particle list only grows.
  - Particles move in clamped sub-steps of a convection–diffusion walk.
- **Cone–sphere contact tracker** (`ConeSphereCollisionManager`, module `ConeSphere`).
  - Each tracked sphere keeps the set of cones touching it and shows a collision colour while that
    set is non-empty.
  - A start-time map keyed by pair name gives contact durations, and a counter counts contacts
    begun.
  - The rows handed to the recorder are an append-only sequence.
- **Cue-stick chop animation** (`AutoCueChop`, module `AutoCueChop`): chopping and returning
  phases, a pause timer and the swing angle.
- **Box-constrained particle cloud** (`PM25Visualization`, module `ParticleVolume`): particles
  drift and are clamped back into the spawn box, and each is shaded by its height and by the
  number of particles near it.

Module `Scene` holds the shared vocabulary: object identities, nullable references, 3-vectors and
the `Mathf` helpers the scripts rely on (`Clamp`, `Clamp01`, `InverseLerp`, `CeilToInt`, `Max`).

Where the code and its design notes disagree, the model follows the code:
- `ToggleTouchingRequirement` zeroes the hold time of completed points too.
- Switching the operation mode does not reset hold times.
- `UserStudyInterface.CheckGameCompletion` never sets `gameCompleted` (that line is commented out).
  Once every point is completed, a stop request is therefore issued on every frame.
- `BurstControl.CheckGameCompletion` has an empty body.
- So `gameCompleted` stays false in both controllers, and the early return at the top of both
  `Update` methods is never taken. Both `Valid` invariants include that fact.
- In the chop animation, the frame that reaches the chop angle also runs the return block. The
  angle goes straight back to its value at the start of that frame (`ChopSwitchSameFrame`).
- With no burst points, the training index clamp has its bounds reversed (`0` and `-1`). Repeated
  training setups then alternate the index between 0 and -1 (`EmptyTrainingIndexAlternates`).
- The pair key `cone.name + "_" + sphere.name` is ambiguous when names contain `_`
  (`PairKeysCanCollide`). The model keys start times exactly as the code does.

## Model

| member | source | states |
|---|---|---|
| Scene.Clamp | Assets/Scripts/PM25Visualization.cs:110-117 | `Mathf.Clamp` lands in [lo, hi] when lo <= hi, is the identity inside it, and otherwise returns one of v, lo or hi |
| Scene.ClampInt | Assets/Scripts/UserStudyInterface.cs:309 | the integer clamp lands in range when lo <= hi, keeps values inside it, and with reversed bounds returns lo for values below lo and hi otherwise |
| Scene.Clamp01 | Assets/Scripts/PM25Visualization.cs:77 | the result lies in [0, 1] and values already there are kept |
| Scene.InverseLerp | Assets/Scripts/PM25Visualization.cs:72 | the height fraction lies in [0, 1], is 0 exactly at or below the lower end and 1 exactly at or above the upper end |
| Scene.Ceil | Assets/Scripts/PM25TrailBurst.cs:297 | `CeilToInt` is the least integer not below its argument |
| Scene.MaxInt | Assets/Scripts/UserStudyInterface.cs:516 | `Mathf.Max` is an upper bound of both arguments and equals one of them |
| Scene.SqDist | Assets/Scripts/PM25Visualization.cs:104 | the squared distance is never negative |
| BurstRules.FirstTouchingFrom | Assets/Scripts/UserStudyInterface.cs:587-607 | the result is the first touching point at or after the start index, with no touching point before it; it is none exactly when no point from there on touches |
| BurstRules.FirstTouching | Assets/Scripts/UserStudyInterface.cs:587-607 | the selected point is a touching burst point with no touching point before it in list order; none is selected exactly when no point touches |
| BurstRules.OperationsKeepValid | Assets/Scripts/UserStudyInterface.cs:501-533 | contact start, contact end, a held frame, a release and a hold-time reset all keep counts non-negative, `touching == (count > 0)` and hold times non-negative |
| BurstRules.EnterExitRoundTrip | Assets/Scripts/UserStudyInterface.cs:501-517 | a contact that starts and ends leaves the point as it was; an end on an untouched point changes nothing; a start sets touching and adds one to the count |
| BurstRules.HeldCompletes | Assets/Scripts/UserStudyInterface.cs:617-626 | a completed point is frozen; completion is reached exactly when hold time reaches the requirement; hold time grows by dt and contacts are untouched |
| BurstRules.ReleasedResets | Assets/Scripts/UserStudyInterface.cs:568-580 | releasing keeps the completed flag, zeroes an incomplete hold time, keeps a completed point, and is idempotent |
| BurstRules.HeldForCompletes | Assets/Scripts/UserStudyInterface.cs:617-626 | holding a fresh point for n equal frames completes it exactly when n*dt reaches the requirement; before that the hold time is n*dt, after it is within one frame past the requirement |
| BurstRules.ThirtiethFrameCompletes | Assets/Scripts/UserStudyInterface.cs:52 | with the default 3-second requirement and 0.1-second frames a point completes on the 30th frame and not on the 29th |
| BurstRules.Increment | Assets/Scripts/UserStudyInterface.cs:659-662 | the per-frame increment `rate / (1 + 0.1 t)` is positive and at most the rate |
| BurstRules.IncrementDecays | Assets/Scripts/UserStudyInterface.cs:659-662 | the longer the emitters have been active, the smaller the increment |
| BurstRules.ExposureGrows | Assets/Scripts/UserStudyInterface.cs:643-672 | the exposure parameter never decreases, grows strictly exactly on emitting frames, and an idle frame zeroes the active time and keeps the parameter |
| BurstRules.Drift | Assets/Scripts/UserStudyInterface.cs:679-686 | the subtle drift stays within the band around the base value and is the plain sum when that sum is inside the band |
| BurstRules.ResampledWithinVariation | Assets/Scripts/UserStudyInterface.cs:691-697 | a resampled value lies within `variation * abs(base)` of its base |
| TrailBurst.EmittingHasDuration | Assets/Scripts/PM25TrailBurst.cs:284-287 | an emitter that emits with its countdown at most its duration has a positive duration, so the emission rate is defined |
| TrailBurst.StartedEmits | Assets/Scripts/PM25TrailBurst.cs:251-262 | starting sets the flag and keeps the duration; a bursting emitter is unchanged; an idle one then emits exactly when time remains or the refill duration is positive; starting twice is starting once |
| TrailBurst.StoppedIsSilent | Assets/Scripts/PM25TrailBurst.cs:265-268 | a stopped emitter does not emit and keeps its countdown and duration; stopping is idempotent and changes nothing on an idle emitter |
| TrailBurst.OperationsKeepConsistent | Assets/Scripts/PM25TrailBurst.cs:142-168 | start, stop, refill, setting the duration and a frame all keep the countdown at or below the duration |
| TrailBurst.WithDurationRefills | Assets/Scripts/PM25TrailBurst.cs:277-281 | after setting duration d both duration and countdown are d, and the emitter emits exactly when bursting and d > 0 |
| TrailBurst.TickedCountsDown | Assets/Scripts/PM25TrailBurst.cs:160-164 | a frame lowers the countdown by dt exactly when the emitter emits and otherwise leaves it alone; flag and duration are kept |
| TrailBurst.EmitCount | Assets/Scripts/PM25TrailBurst.cs:297 | the number emitted is the least natural number not below `particleCount / emissionDuration * dt` |
| TrailBurst.EmitCountPositive | Assets/Scripts/PM25TrailBurst.cs:297 | a positive budget over a positive frame emits at least one particle |
| TrailBurst.Batch | Assets/Scripts/PM25TrailBurst.cs:298-328 | one emission appends exactly n live particles stamped with the current time |
| TrailBurst.NormalSample | Assets/Scripts/PM25TrailBurst.cs:405 | a normal sample lies in [-3, 3] and an in-range value is kept |
| TrailBurst.DiffusionScale | Assets/Scripts/PM25TrailBurst.cs:187-192 | given the engine's square root of the argument, the scale is that root (squaring back to the argument) when the argument is positive, and the 0.001 fallback when the root is zero or NaN |
| TrailBurst.ClampDelta | Assets/Scripts/PM25TrailBurst.cs:215-217 | each axis of an applied delta lies in [-10, 10] and an in-range delta is kept |
| TrailBurst.SubStep | Assets/Scripts/PM25TrailBurst.cs:183-230 | a non-finite delta leaves the particle unchanged; otherwise it moves at most 10 along each axis; liveness and creation time are kept |
| TrailBurst.StepCount | Assets/Scripts/PM25TrailBurst.cs:174-175 | a frame has at least one sub-step |
| TrailBurst.Advanced | Assets/Scripts/PM25TrailBurst.cs:171-246 | updating the particles keeps their number |
| TrailBurst.SubstepsBounded | Assets/Scripts/PM25TrailBurst.cs:181-231 | over k sub-steps a particle moves at most 10k along each axis whatever the velocity, wind and samples, and stays alive or destroyed with the same creation time |
| TrailBurst.NonFiniteStepsMoveNothing | Assets/Scripts/PM25TrailBurst.cs:205-212 | a frame whose every sub-step has a non-finite delta leaves the particle exactly as it was |
| TrailBurst.DensityParam | Assets/Scripts/PM25TrailBurst.cs:374 | the colour parameter lies in [0, 1]; it is NaN exactly for 0/0; it is 1 at or above the maximum density and the plain ratio below it |
| TrailBurst.TrailBurst.Create | Assets/Scripts/PM25TrailBurst.cs:59-112 | a new emitter is idle with a full countdown (`Awake` runs inside `AddComponent`, before the requested flag reaches `startOnAwake`), keeps the requested flag only in `startOnAwake`, has the given settings, mouse control on and no particles |
| TrailBurst.TrailBurst.IsEmitting | Assets/Scripts/PM25TrailBurst.cs:284-287 | emitting is bursting with time left, and under the object invariant implies a positive duration |
| TrailBurst.TrailBurst.StartBursting | Assets/Scripts/PM25TrailBurst.cs:251-262 | the new on/off state is the `Started` transition of the old one |
| TrailBurst.TrailBurst.StopBursting | Assets/Scripts/PM25TrailBurst.cs:265-268 | the new on/off state is the `Stopped` transition of the old one |
| TrailBurst.TrailBurst.ResetEmissionTimer | Assets/Scripts/PM25TrailBurst.cs:271-274 | the countdown is refilled from the duration |
| TrailBurst.TrailBurst.SetEmissionDuration | Assets/Scripts/PM25TrailBurst.cs:277-281 | duration and countdown both become the new value and the invariant holds |
| TrailBurst.TrailBurst.EmitParticles | Assets/Scripts/PM25TrailBurst.cs:295-329 | the loop appends exactly `EmitCount` spawned particles after the existing ones, which are untouched |
| TrailBurst.TrailBurst.UpdateParticles | Assets/Scripts/PM25TrailBurst.cs:171-246 | the nested loop gives every live particle its sub-steps in order and skips destroyed ones |
| TrailBurst.TrailBurst.Update | Assets/Scripts/PM25TrailBurst.cs:142-168 | one frame polls the keys, emits and counts down only while emitting, then moves every particle; the countdown stays at or below the duration |
| BurstSetup.CreateBurstSystems | Assets/Scripts/UserStudyInterface.cs:128-155 | one new idle emitter and fresh bookkeeping per burst point, and nothing for other objects |
| UserStudy.ModeSetup | Assets/Scripts/UserStudyInterface.cs:288-340 | training clamps the index into the list and, with points, picks that point, shows the visualization and restarts the iteration count; study hides the visualization and drops the training point |
| UserStudy.ModeSetupIdempotent | Assets/Scripts/UserStudyInterface.cs:288-340 | with burst points, or in study mode, setting a mode up twice is setting it up once, and a training setup depends only on the index |
| UserStudy.EmptyTrainingIndexAlternates | Assets/Scripts/UserStudyInterface.cs:309 | with no burst points repeated training setups move the index from 0 to -1 and back |
| UserStudy.UserStudyInterface.Start | Assets/Scripts/UserStudyInterface.cs:105-198 | one idle 50-particle emitter and fresh bookkeeping per point, no active point, the environment at its base values, and the mode set up; in training with points the routine's first pass has counted an iteration, started the training emitter and taken one exposure step at rate 0.028 |
| UserStudy.UserStudyInterface.OnEnable | Assets/Scripts/UserStudyInterface.cs:472-498 | every contact count and touching flag is cleared; hold times and completion are kept |
| UserStudy.UserStudyInterface.OnBurstPointCollisionEnter | Assets/Scripts/UserStudyInterface.cs:501-509 | a null or unknown object changes nothing; otherwise only that point's count grows and it touches |
| UserStudy.UserStudyInterface.OnBurstPointCollisionExit | Assets/Scripts/UserStudyInterface.cs:511-533 | the count drops but not below 0; an active point losing its last contact is dropped and, unless completed, its emitter stops and its hold time resets; unknown objects change nothing |
| UserStudy.UserStudyInterface.CheckCollisionWithBurstPoint | Assets/Scripts/UserStudyInterface.cs:535-553 | the event is applied to the object when it is a burst point and ignored otherwise |
| UserStudy.UserStudyInterface.OnTriggerEnter | Assets/Scripts/UserStudyInterface.cs:451-459 | contacts count only in study mode; training mode changes nothing |
| UserStudy.UserStudyInterface.OnTriggerExit | Assets/Scripts/UserStudyInterface.cs:461-469 | contacts end only in study mode; training mode changes nothing |
| UserStudy.UserStudyInterface.StopAllBurstSystems | Assets/Scripts/UserStudyInterface.cs:562-565 | every emitter is stopped |
| UserStudy.UserStudyInterface.ReleaseHoldTimes | Assets/Scripts/UserStudyInterface.cs:568-580 | every point takes the release transition: incomplete hold times become 0, completed points are kept |
| UserStudy.UserStudyInterface.FindFirstTouching | Assets/Scripts/UserStudyInterface.cs:595-607 | the search returns the first touching point in list order |
| UserStudy.UserStudyInterface.CheckGameCompletion | Assets/Scripts/UserStudyInterface.cs:747-769 | the stop request is made exactly when every point is completed |
| UserStudy.UserStudyInterface.SelectActivePoint | Assets/Scripts/UserStudyInterface.cs:587-607 | an active point that stopped touching is dropped and replaced by the first touching point; the result, if any, touches |
| UserStudy.UserStudyInterface.HoldActivePoint | Assets/Scripts/UserStudyInterface.cs:610-640 | only the active point takes a held frame and only its emitter starts; contacts are kept and completion never goes back |
| UserStudy.UserStudyInterface.ReleasedFrame | Assets/Scripts/UserStudyInterface.cs:562-582 | with the button up no emitter bursts, incomplete hold times are 0, completed points are kept and no point is active |
| UserStudy.UserStudyInterface.SelectAndHold | Assets/Scripts/UserStudyInterface.cs:587-640 | the selected point, if any, becomes active, only its emitter is started and only it takes a held frame |
| UserStudy.UserStudyInterface.PressedFrame | Assets/Scripts/UserStudyInterface.cs:562-640 | with the button down every emitter but the selected point's is stopped, so at most one bursts, and only the selected point takes a held frame |
| UserStudy.UserStudyInterface.HandleBurstInput | Assets/Scripts/UserStudyInterface.cs:556-641 | the whole new state of one input frame: released, every emitter stops, no point is active and incomplete hold times reset; pressed, only the selected point's emitter is started and only it takes a held frame; contacts are kept |
| UserStudy.UserStudyInterface.AnyBurstSystemEmitting | Assets/Scripts/UserStudyInterface.cs:646-654 | the search answers whether some emitter is emitting |
| UserStudy.UserStudyInterface.UpdateBurstParameter | Assets/Scripts/UserStudyInterface.cs:643-672 | the exposure takes one step at rate 0.01: timer reset when idle, decaying increment when emitting |
| UserStudy.UserStudyInterface.UpdateEnvironmentParameters | Assets/Scripts/UserStudyInterface.cs:674-709 | subtle mode keeps wind, humidity and temperature within 0.3, 0.1 and 0.2 of their bases; otherwise each is resampled around its base |
| UserStudy.UserStudyInterface.SetBurstVisualization | Assets/Scripts/UserStudyInterface.cs:772-802 | the visualization flag takes the given value |
| UserStudy.UserStudyInterface.ToggleBurstVisualization | Assets/Scripts/UserStudyInterface.cs:805-808 | the visualization flag flips |
| UserStudy.UserStudyInterface.ResetPointStates | Assets/Scripts/UserStudyInterface.cs:812-818 | every point's bookkeeping is fresh |
| UserStudy.UserStudyInterface.ResetAllBurstPoints | Assets/Scripts/UserStudyInterface.cs:810-838 | every point is fresh, every emitter stopped, no point active, the game not completed and the exposure back to its initial value with a zero timer |
| UserStudy.UserStudyInterface.ZeroHoldTimes | Assets/Scripts/UserStudyInterface.cs:855-858 | every hold time, completed ones included, becomes 0 |
| UserStudy.UserStudyInterface.ToggleTouchingRequirement | Assets/Scripts/UserStudyInterface.cs:841-864 | touching stays required, every emitter stops, every hold time becomes 0 and no point is active |
| UserStudy.UserStudyInterface.SetupOperationMode | Assets/Scripts/UserStudyInterface.cs:288-340 | every emitter stops, no point is active, the training fields take the `ModeSetup` transition, and training with points runs the routine's first pass (iteration counted, training emitter started, one exposure step at rate 0.028) |
| UserStudy.UserStudyInterface.ToggleOperationMode | Assets/Scripts/UserStudyInterface.cs:441-448 | the mode flips and is set up as `SetupOperationMode` says, routine pass included; study hides the visualization, training with points picks a training point |
| UserStudy.UserStudyInterface.RestartTraining | Assets/Scripts/UserStudyInterface.cs:343-369 | in training mode every emitter stops, the iteration count restarts and the routine's first pass runs again; in study mode nothing changes |
| UserStudy.UserStudyInterface.EnterTrainingRoutine | Assets/Scripts/UserStudyInterface.cs:372-410 | the routine's first pass: with iterations left, training mode and a training point it counts an iteration (never beyond the limit), starts the training emitter and, while a training burst lasts, takes one exposure step at rate 0.028, otherwise stops the emitter again; without those it changes nothing |
| UserStudy.UserStudyInterface.StudyFrame | Assets/Scripts/UserStudyInterface.cs:229-235 | the whole new state of a study frame: the input effect of `HandleBurstInput`, one exposure step driven by whether an emitter then emits (a zero timer with the button up), contacts kept, and a stop request exactly when every point is completed |
| UserStudy.UserStudyInterface.HandleKeys | Assets/Scripts/UserStudyInterface.cs:239-254 | the whole effect of the V, M and R keys as `Keys` plans it: V flips the visualization, M toggles and sets up the mode and drops the active point, R restarts training in training mode; the exposure and every emitter follow each routine pass that M and R run |
| UserStudy.UserStudyInterface.Update | Assets/Scripts/UserStudyInterface.cs:210-264 | the whole new state of a frame: in training mode only the keys act and no stop is requested; in study mode the input is handled, the exposure steps, a stop is requested exactly when every point is completed, and the keys then act on that state |
| BurstController.BurstControl.Start | Assets/Scripts/BurstControl.cs:63-126 | one idle 500-particle emitter and fresh bookkeeping per point, no active point, the initial exposure and the environment at its base values |
| BurstController.BurstControl.OnEnable | Assets/Scripts/BurstControl.cs:157-182 | every contact count and touching flag is cleared |
| BurstController.BurstControl.OnBurstPointCollisionEnter | Assets/Scripts/BurstControl.cs:186-194 | a null or unknown object changes nothing; otherwise only that point's count grows and it touches |
| BurstController.BurstControl.OnBurstPointCollisionExit | Assets/Scripts/BurstControl.cs:196-218 | the count drops but not below 0; an active point losing its last contact is dropped and, unless completed, its emitter stops and its hold time resets |
| BurstController.BurstControl.CheckCollisionWithBurstPoint | Assets/Scripts/BurstControl.cs:220-237 | the event is applied to the object when it is a burst point and ignored otherwise |
| BurstController.BurstControl.OnTriggerEnter | Assets/Scripts/BurstControl.cs:144-148 | a contact start is applied in every state |
| BurstController.BurstControl.OnTriggerExit | Assets/Scripts/BurstControl.cs:150-153 | a contact end is applied in every state |
| BurstController.BurstControl.StopAllBurstSystems | Assets/Scripts/BurstControl.cs:246-249 | every emitter is stopped |
| BurstController.BurstControl.ReleaseHoldTimes | Assets/Scripts/BurstControl.cs:252-264 | incomplete hold times become 0 and completed points are kept |
| BurstController.BurstControl.FindFirstTouching | Assets/Scripts/BurstControl.cs:279-291 | the search returns the first touching point in list order |
| BurstController.BurstControl.SelectActivePoint | Assets/Scripts/BurstControl.cs:271-291 | an active point that stopped touching is replaced by the first touching point; the result, if any, touches |
| BurstController.BurstControl.HoldActivePoint | Assets/Scripts/BurstControl.cs:294-321 | only the active point takes a held frame and only its emitter starts |
| BurstController.BurstControl.ReleasedFrame | Assets/Scripts/BurstControl.cs:246-266 | with the button up no emitter bursts, incomplete hold times are 0 and no point is active |
| BurstController.BurstControl.SelectAndHold | Assets/Scripts/BurstControl.cs:271-321 | the selected point becomes active, only its emitter is started and only it takes a held frame |
| BurstController.BurstControl.PressedFrame | Assets/Scripts/BurstControl.cs:246-321 | with the button down at most the selected point's emitter bursts and only that point takes a held frame |
| BurstController.BurstControl.HandleBurstInput | Assets/Scripts/BurstControl.cs:240-327 | the whole new state of one input frame: released, every emitter stops, no point is active and incomplete hold times reset; pressed, only the selected point's emitter is started and only it takes a held frame; at most one emitter bursts and contacts are kept |
| BurstController.BurstControl.AnyBurstSystemEmitting | Assets/Scripts/BurstControl.cs:332-340 | the search answers whether some emitter is emitting |
| BurstController.BurstControl.UpdateBurstParameter | Assets/Scripts/BurstControl.cs:329-365 | the exposure takes one step at rate 0.013 |
| BurstController.BurstControl.UpdateEnvironmentParameters | Assets/Scripts/BurstControl.cs:367-402 | subtle mode keeps each value within 0.2 of its base; otherwise each is resampled around its base |
| BurstController.BurstControl.ResetPointStates | Assets/Scripts/BurstControl.cs:448-453 | every point's bookkeeping is fresh |
| BurstController.BurstControl.ResetAllBurstPoints | Assets/Scripts/BurstControl.cs:446-474 | every point is fresh, every emitter stopped, no point active and the exposure back to its initial value |
| BurstController.BurstControl.ZeroHoldTimes | Assets/Scripts/BurstControl.cs:491-494 | every hold time, completed ones included, becomes 0 |
| BurstController.BurstControl.ToggleTouchingRequirement | Assets/Scripts/BurstControl.cs:477-500 | touching stays required, every emitter stops, every hold time becomes 0 and no point is active |
| BurstController.BurstControl.Update | Assets/Scripts/BurstControl.cs:128-141 | the whole new state of a frame: the input effect of `HandleBurstInput`, then one exposure step at rate 0.013 driven by whether an emitter emits, with a zero timer when the button is up; contacts are kept |
| ConeSphere.BusySpheres | Assets/Scripts/ConeSphereCollisionManager.cs:232-243 | the busy spheres are exactly the tracked spheres with a non-empty contact set |
| ConeSphere.Touched | Assets/Scripts/ConeSphereCollisionManager.cs:104-110 | a start adds the cone to a tracked sphere's set, leaves its other cones and every other sphere alone, and ignores untracked spheres |
| ConeSphere.Released | Assets/Scripts/ConeSphereCollisionManager.cs:132-138 | an end removes the cone from a tracked sphere's set and leaves everything else alone |
| ConeSphere.TouchReleaseRoundTrip | Assets/Scripts/ConeSphereCollisionManager.cs:101-164 | a contact of a new cone that starts and ends leaves the contact sets as they were |
| ConeSphere.TouchReleaseIdempotent | Assets/Scripts/ConeSphereCollisionManager.cs:107-137 | a repeated start or a repeated end changes nothing |
| ConeSphere.BusySpheresAfterEvents | Assets/Scripts/ConeSphereCollisionManager.cs:112-116 | a start makes the sphere busy; an end frees it exactly when its last cone leaves; other spheres keep their state |
| ConeSphere.PairKeysCanCollide | Assets/Scripts/ConeSphereCollisionManager.cs:119 | two different pairs can share a start-time key when a name contains the separator |
| ConeSphere.CollisionManager.Start | Assets/Scripts/ConeSphereCollisionManager.cs:42-63 | every tracked sphere starts with no cones and its original colour; no start times, count or records |
| ConeSphere.CollisionManager.OnConeCollidedWithSphere | Assets/Scripts/ConeSphereCollisionManager.cs:101-127 | an untracked sphere or repeated cone changes nothing; a new cone joins the set, recolours the sphere exactly on its first cone, records a start time, adds one to the count and appends a study-mode row |
| ConeSphere.CollisionManager.AddContact | Assets/Scripts/ConeSphereCollisionManager.cs:107-116 | the cone joins the set and the colour changes exactly when the set was empty |
| ConeSphere.CollisionManager.RecordStart | Assets/Scripts/ConeSphereCollisionManager.cs:119-124 | the pair's start time is recorded, the count grows by one and a start row is appended in study mode |
| ConeSphere.CollisionManager.OnConeStoppedCollidingWithSphere | Assets/Scripts/ConeSphereCollisionManager.cs:129-164 | an untracked sphere or absent cone changes nothing; otherwise the cone leaves, the colour reverts exactly when the set empties, the duration is now minus the start time or 0 without one, the key is removed and the count is kept |
| ConeSphere.CollisionManager.RemoveContact | Assets/Scripts/ConeSphereCollisionManager.cs:135-144 | the cone leaves the set and the colour changes exactly when the set becomes empty |
| ConeSphere.CollisionManager.RecordEnd | Assets/Scripts/ConeSphereCollisionManager.cs:150-162 | the duration is now minus the start time, or 0 without one; the key is removed and an end row is appended in study mode |
| ConeSphere.CollisionManager.GetCollisionCount | Assets/Scripts/ConeSphereCollisionManager.cs:222-229 | the count is 0 for untracked spheres and 0 exactly when the sphere is not busy |
| ConeSphere.CollisionManager.IsSphereBeingCollided | Assets/Scripts/ConeSphereCollisionManager.cs:216-219 | a sphere is being collided exactly when its count is positive, which is exactly when it is tracked and shows the collision colour |
| ConeSphere.CollisionManager.GetActiveCollisionSphereCount | Assets/Scripts/ConeSphereCollisionManager.cs:232-243 | the loop counts exactly the busy spheres, never more than the tracked ones |
| ConeSphere.CollisionManager.ResetAllSpheres | Assets/Scripts/ConeSphereCollisionManager.cs:246-259 | every set empties, every sphere takes its original colour, start times are cleared and the count is 0 |
| AutoCueChop.StepKeepsOneHot | Assets/Scripts/AutoCueChop.cs:55-100 | exactly one of chopping and returning holds after every frame |
| AutoCueChop.PauseOnlyCountsDown | Assets/Scripts/AutoCueChop.cs:58-62 | during a pause a frame only takes dt off the timer |
| AutoCueChop.ChopAdvances | Assets/Scripts/AutoCueChop.cs:65-72 | chopping below the chop angle adds `chopSpeed * dt` and keeps the phase |
| AutoCueChop.ChopSwitchSameFrame | Assets/Scripts/AutoCueChop.cs:65-99 | reaching the chop angle starts the pause and returns, and the same frame's return step takes the angle back to its value at the frame's start |
| AutoCueChop.ReturnAdvances | Assets/Scripts/AutoCueChop.cs:83-90 | returning above 0 takes `chopSpeed * dt` off and keeps the phase |
| AutoCueChop.ReturnSwitch | Assets/Scripts/AutoCueChop.cs:83-99 | returning to 0 or below switches to chopping with the pause set |
| AutoCueChop.StepKeepsSwing | Assets/Scripts/AutoCueChop.cs:55-100 | a frame keeps the stick within one angular step of [0, chopAngle], below the top while chopping and above 0 while returning |
| AutoCueChop.RunKeepsSwing | Assets/Scripts/AutoCueChop.cs:55-100 | every run of frames keeps that swing envelope |
| AutoCueChop.InitialInSwing | Assets/Scripts/AutoCueChop.cs:11-14 | a new stick is in its swing envelope |
| AutoCueChop.CueChopper.constructor | Assets/Scripts/AutoCueChop.cs:6-14 | a new stick has the given settings and starts chopping from angle 0 |
| AutoCueChop.CueChopper.Update | Assets/Scripts/AutoCueChop.cs:55-100 | the imperative update performs exactly one `Step` of the state machine |
| ParticleVolume.ConstrainToVolume | Assets/Scripts/PM25Visualization.cs:110-117 | the result lies in a proper box and a point already inside is kept |
| ParticleVolume.ConstrainIdempotent | Assets/Scripts/PM25Visualization.cs:110-117 | clamping into a proper box twice is clamping once |
| ParticleVolume.InvertedBoxNotIdempotent | Assets/Scripts/PM25Visualization.cs:110-117 | with a negative range the clamp moves a point from one end to the other, so it is not idempotent |
| ParticleVolume.Density | Assets/Scripts/PM25Visualization.cs:99-108 | the density is at most the number of particles |
| ParticleVolume.DensityCountsSelf | Assets/Scripts/PM25Visualization.cs:99-108 | the density at a particle's own position is at least 1 for a non-negative radius |
| ParticleVolume.DensityNegativeRadius | Assets/Scripts/PM25Visualization.cs:104 | a negative radius counts nothing |
| ParticleVolume.Alpha | Assets/Scripts/PM25Visualization.cs:76-77 | alpha lies in [0, 1], is 1 exactly from density 10 upwards, and is at least 0.1 for any neighbour |
| ParticleVolume.Drifted | Assets/Scripts/PM25Visualization.cs:61-69 | a drifted particle lies in a proper box whatever the wind, noise and gravity |
| ParticleVolume.Visualization.Start | Assets/Scripts/PM25Visualization.cs:27-53 | `particleCount` particles (none when it is not positive), each at the centre plus an offset drawn between the two half-range ends in either order, and all inside the box when no range axis is negative |
| ParticleVolume.Visualization.CalculateDensity | Assets/Scripts/PM25Visualization.cs:99-108 | the loop counts exactly the particles within the radius, at most all of them, and at least 1 at a particle's own position |
| ParticleVolume.Visualization.ShadeAt | Assets/Scripts/PM25Visualization.cs:72-77 | a particle's height fraction and alpha lie in [0, 1], and its alpha is at least 0.1 for a non-negative radius because it counts itself |
| ParticleVolume.Visualization.Update | Assets/Scripts/PM25Visualization.cs:55-90 | every particle drifts in list order and ends in a proper box; each shade is `ShadeAt` for the density seen at that moment (earlier particles moved, later ones not), with its height taken from the particle's new position |

## Left out

- The later passes of the training coroutine `TrainingModeRoutine`, its `WaitForSeconds` interval, `StopCoroutine` and its UI: they are cooperative engine scheduling. Only the first pass, which `StartCoroutine` runs before returning, is modelled (`EnterTrainingRoutine`), with the calling frame's `dt` as its first `Time.deltaTime`; the training burst it starts is therefore still running afterwards.
- The passive-moving branch of `UserStudyInterface.Update`, which drifts the parameter by a random amount. The model covers the active-drilling construction only.
- CSV writing (`SaveToCSV`, `RecordCollisionToCSV`), UI texts and log messages: file I/O and formatting. Recorder rows are an append-only sequence of records.
- `GameObject.Find`, `StopPlayMode` and the transform writes of `SetBurstVisualization`. They are engine calls; the stop request is a returned boolean.
- Key and button polling: each is a boolean parameter of the frame.
- Collider, rigidbody, renderer and trail setup in `Start` and `OnEnable`. Colours are an enum in the contact tracker and absent elsewhere.
- The gradient and `Mathf.Pow` colour curves, and `Physics.OverlapSphere`: only the clamped colour parameter is modelled, with the neighbour count as an input.
- Box–Muller sampling: normal draws, uniform draws, `insideUnitSphere` and the engine's square root are inputs.
- NaN and infinity: reals have neither. A sub-step's "delta is finite" test is an input flag. `DiffusionScale` reads a negative argument as the NaN case. `DensityParam` marks 0/0 as `None`. The velocity NaN reset is not modelled.
- Float32 rounding: all arithmetic is exact.
- The four per-point dictionaries are one map of `PointState` records. Every operation updates all four together, so the model keeps them aligned by construction.
- `ResetAllBurstPoints` interleaves stopping and resetting per point; the model resets all points and then stops all emitters, with the same end state.
- `UserStudy.UserStudyInterface.Start` applies `ModeSetup` and the routine's first pass inline instead of calling `SetupOperationMode`, because a constructor cannot call methods on the object it is building. The stopping loop would be a no-op on the idle emitters just created.
- Helper methods such as `SelectAndHold`, `ReleasedFrame`, `PressedFrame`, `HoldActivePoint`, `StudyFrame`, `HandleKeys` and `EnterTrainingRoutine` split source methods. Each is documented as the part of its source method it covers.
- Particles or spheres destroyed from outside the scripts. `TrailBurst` models a destroyed particle as not alive and skips it. `PM25Visualization` and the contact tracker model objects that nothing destroys (`CalculateDensity` would dereference a destroyed particle).
- `ConeSphere.CollisionManager.OnConeCollidedWithSphere`: requires a recorder whenever a new contact starts. Without one, the code still updates the contact set, the colour, the start time (read from the engine clock `Time.time`) and the count, and then throws at the unguarded recorder dereference; that no-recorder configuration is not modelled.
- `ConeSphere.CollisionManager.OnConeStoppedCollidingWithSphere`: requires a recorder whenever a contact ends, for the same reason. Without one, the code removes the cone, restores the colour and consumes the start time using `Time.time`, and then throws; that configuration is not modelled either.
- The recorder's clock and current exposure value, and object names, are parameters.
- The pivot rotation and pivot visual of `AutoCueChop`: engine transforms.
- The sibling particle scripts (`PM25Spray`, `PM25BurstSpray`, `PM25PhysicsBurst`, `PM25ConvectionDiffusion`, `PM25Simulator`) and `Drilling.cs` are not part of this model: they repeat the random walk already modelled or are a single engine rotation.
- `ParticleVolume.Visualization.Update`: the diffusion scale `Sqrt(2 * D * dt)` is an input rather than computed from `dt`.
