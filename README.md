# WorkerWrapper run contract and ViewFinderUseCase dispatch bookkeeping

This project models and proves two sequential state machines from androidx.

**WorkManager's `WorkerWrapper.run()`.** The wrapper's own source is not part of this model. What
is modelled is the contract that `WorkerWrapperTest.java` pins for one `run(id)`. The work store is:

- a map from work id to `WorkSpec`: state, run attempt count, period start time, interval, worker
  class, input merger class, input and output;
- a table of `Dependency(workSpecId, prerequisiteId)` rows;
- a trace of the calls the run makes: `onExecuted(id, success, needsReschedule)` on the listener,
  and `schedule(specs...)` on the schedulers.

`WorkerWrapper.WorkStore` is a class that holds the store. Its `Run` method changes the store in
place:

- it checks the state;
- it resolves the class names;
- it builds the input, runs the worker and records the result;
- it fails the transitive dependents, or walks the direct dependents to unblock them;
- finally it sweeps the not-yet-scheduled ENQUEUED work to the schedulers.

`Run` is proved to produce exactly `RunSpec`, a function of the old store. Every assertion of the
test suite is proved as a lemma about `RunSpec`. Each lemma covers every store in the situation
its test sets up, not only the test's fixture: any dependency table, any other rows, any ids, and
any instant `now`. The
dependency queries (direct dependents, prerequisite completion, prerequisite outputs) are in
`DependencyGraph`. So is the transitive-dependents walk, which is proved to find exactly the works
reachable along dependency rows. The two input mergers are in `InputMergers`. The test workers
(`TestWorker`, `FailureWorker`, `RetryWorker`, `EchoingWorker`, `ChainedArgumentWorker`) are one
pure function, `WorkModel.DoWork`.

**CameraX's `ViewFinderUseCase`.** `ViewFinder.ViewFinderUseCase` is a class with the source's
three fields:

- the subscribed listener;
- the latest `ViewFinderOutput`;
- `surfaceDispatched`.

It also holds the target rotation of its configuration, and a trace of its side effects:
`notifyActive`, `notifyInactive`, `notifyReset`, `resetSurfaceTexture`, `onUpdated`, a texture
release, the checked texture's release, and a configuration update. Textures and listeners are
opaque ids. Outputs are `(texture, size, rotation)` records with structural equality, as an
AutoValue class has.

The class invariant `Valid()` says three things:

- `surfaceDispatched` is true exactly when the latest texture was handed to a listener;
- no texture handed to a listener is ever released by the use case afterwards;
- the camera was last told "active" exactly when a listener is set.

The second rule holds only because `UpdateOutput` requires a texture that is the latest one or has
never been seen. In other words, it depends on `CheckedSurfaceTexture` never handing back an earlier
texture. Without that, the source itself could release a dispatched texture:

1. T1 is dispatched.
2. T2 arrives while no listener is set, and `surfaceDispatched` becomes false.
3. T1 is handed back.
4. T3 then releases T1.

The constructor establishes `Valid()`. Every public method keeps it, and so do the private
`UpdateOutput`, `PublishOutput` and `InvalidateMetadata`. `Emit` and `RetireLatestTexture` are steps
inside those methods and do not promise `Valid()` on their own.

## Model

| member | source | states |
|---|---|---|
| WorkModel.DoWork | work/workmanager/src/androidTest/java/androidx/work/impl/WorkerWrapperTest.java:304-309 | the test workers: success exactly for TestWorker, EchoingWorker and ChainedArgumentWorker; EchoingWorker outputs its input |
| WorkerWrapper.WorkStore.Run | work/workmanager/src/androidTest/java/androidx/work/impl/WorkerWrapperTest.java:96-619 | one run changes the store and trace exactly as `RunSpec` of the old store says, keeps the store well formed, and returns the input the worker was built with (none if no worker ran) |
| WorkerWrapper.WorkStore.ExecuteWorker | work/workmanager/src/androidTest/java/androidx/work/impl/WorkerWrapperTest.java:109-133 | builds the input from own input and prerequisite outputs, counts one attempt, runs the worker, records and reports its result |
| WorkerWrapper.WorkStore.FinishWork | work/workmanager/src/androidTest/java/androidx/work/impl/WorkerWrapperTest.java:414-522 | records a result: periodic work is re-enqueued for the next period, retry re-enqueues, one-shot success unblocks, one-shot failure cascades |
| WorkerWrapper.WorkStore.FailWorkAndDependents | work/workmanager/src/androidTest/java/androidx/work/impl/WorkerWrapperTest.java:382-410 | the work and every transitive dependent become FAILED, except CANCELLED ones; nothing else changes |
| WorkerWrapper.WorkStore.UnblockDependents | work/workmanager/src/androidTest/java/androidx/work/impl/WorkerWrapperTest.java:234-267 | the loop over direct dependents enqueues exactly the BLOCKED ones whose prerequisites all SUCCEEDED, with period start `now` |
| WorkerWrapper.WorkStore.ScheduleEligibleWork | work/workmanager/src/androidTest/java/androidx/work/impl/WorkerWrapperTest.java:583-599 | with schedulers, one schedule(...) call gets every ENQUEUED, not yet scheduled work, which is then marked |
| WorkerWrapper.ConsideredRowsAreUnblocked | work/workmanager/src/androidTest/java/androidx/work/impl/WorkerWrapperTest.java:234-267 | unblocking dependents one at a time equals judging them all against the rows before the loop |
| WorkerWrapper.UnblockComplete | work/workmanager/src/androidTest/java/androidx/work/impl/WorkerWrapperTest.java:234-267 | once all direct dependents were considered, the rows are `Unblock`'s |
| DependencyGraph.DependentIds | work/workmanager/src/androidTest/java/androidx/work/impl/WorkerWrapperTest.java:238 | lists exactly the works with a dependency row on `id` |
| DependencyGraph.HasCompletedAllPrerequisites | work/workmanager/src/androidTest/java/androidx/work/impl/WorkerWrapperTest.java:252-262 | a work has completed its prerequisites exactly when every dependency row of it names a prerequisite that exists and has SUCCEEDED; a row whose prerequisite is missing counts as incomplete, and a work with no rows has completed them |
| DependencyGraph.InputsFromPrerequisites | work/workmanager/src/androidTest/java/androidx/work/impl/WorkerWrapperTest.java:292 | holds exactly the outputs of the existing prerequisites of `id` |
| DependencyGraph.InputsFromTwoPrerequisites | work/workmanager/src/androidTest/java/androidx/work/impl/WorkerWrapperTest.java:299-347 | a work with exactly two dependency rows receives both prerequisites' outputs, in the order of the rows |
| DependencyGraph.InputsFromSinglePrerequisite | work/workmanager/src/androidTest/java/androidx/work/impl/WorkerWrapperTest.java:292-294 | a work with one dependency row receives exactly that prerequisite's output |
| DependencyGraph.TransitiveDependents | work/workmanager/src/androidTest/java/androidx/work/impl/WorkerWrapperTest.java:382-410 | the worklist walk returns exactly the works reachable from the root along dependency rows, and terminates on cyclic tables |
| InputMergers.OverwritingMerge | work/workmanager/src/androidTest/java/androidx/work/impl/WorkerWrapperTest.java:271-295 | the default merger: the payloads are folded in order, each later payload overwriting the earlier ones key by key (its meaning is proved in `OverwritingMergeKeys` and `OverwritingMergeLastWins`) |
| InputMergers.ArrayCreatingMerge | work/workmanager/src/androidTest/java/androidx/work/impl/WorkerWrapperTest.java:311 | ArrayCreatingInputMerger: the payloads are folded in order; a key met again has its values joined into one string array (its meaning is proved in `ArrayCreatingMergeIsPerKey`) |
| InputMergers.Merge | work/workmanager/src/androidTest/java/androidx/work/impl/WorkerWrapperTest.java:299-347 | the input a work's named merger class builds: the default overwriting merger or the array-creating one |
| InputMergers.OverwritingMergeKeys | work/workmanager/src/androidTest/java/androidx/work/impl/WorkerWrapperTest.java:271-295 | the default merger's result holds exactly the keys some payload holds |
| InputMergers.OverwritingMergeLastWins | work/workmanager/src/androidTest/java/androidx/work/impl/WorkerWrapperTest.java:271-295 | each key takes the value of the last payload holding it |
| InputMergers.ArrayCreatingMergeIsPerKey | work/workmanager/src/androidTest/java/androidx/work/impl/WorkerWrapperTest.java:299-347 | the array-creating fold: a key held once passes through unchanged, a key held several times becomes one array of all its values in order |
| InputMergers.ArrayMergeOfTwoEchoes | work/workmanager/src/androidTest/java/androidx/work/impl/WorkerWrapperTest.java:342-346 | two payloads with one shared key merge into one key whose array holds both values |
| WorkerWrapperProperties.RunUnknownWork | work/workmanager/src/androidTest/java/androidx/work/impl/WorkerWrapperTest.java:137-144 | an unknown id reports (false, false) and changes nothing else |
| WorkerWrapperProperties.RunNotEnqueued | work/workmanager/src/androidTest/java/androidx/work/impl/WorkerWrapperTest.java:148-158 | a work that is not ENQUEUED is not executed and no row changes; it reports (false, true) exactly when it is RUNNING |
| WorkerWrapperProperties.RunCancelled | work/workmanager/src/androidTest/java/androidx/work/impl/WorkerWrapperTest.java:162-173 | a CANCELLED work stays CANCELLED and reports (false, false) |
| WorkerWrapperProperties.RunAlreadyRunning | work/workmanager/src/androidTest/java/androidx/work/impl/WorkerWrapperTest.java:149-157 | a RUNNING work keeps its row and attempt count, runs no worker, and reports (false, true) |
| WorkerWrapperProperties.RunUnresolvableClass | work/workmanager/src/androidTest/java/androidx/work/impl/WorkerWrapperTest.java:177-202 | an unresolvable worker or merger class name ends FAILED, counts no attempt, runs no worker and reports (false, false) |
| WorkerWrapperProperties.RunOneShotSuccess | work/workmanager/src/androidTest/java/androidx/work/impl/WorkerWrapperTest.java:96-119 | a succeeding one-shot work ends SUCCEEDED with the worker's output and one more attempt, and reports (true, false) |
| WorkerWrapperProperties.RunOneShotFailure | work/workmanager/src/androidTest/java/androidx/work/impl/WorkerWrapperTest.java:123-133 | a failing one-shot work ends FAILED with one more attempt and reports (false, false) |
| WorkerWrapperProperties.OneShotSuccessRows | work/workmanager/src/androidTest/java/androidx/work/impl/WorkerWrapperTest.java:96-105 | a successful one-shot run is: write the success, unblock the dependents, report (true, false), sweep |
| WorkerWrapperProperties.UnblockReleases | work/workmanager/src/androidTest/java/androidx/work/impl/WorkerWrapperTest.java:259-261 | unblocking enqueues a BLOCKED direct dependent whose prerequisites all SUCCEEDED, with period start `now` |
| WorkerWrapperProperties.StillBlocked | work/workmanager/src/androidTest/java/androidx/work/impl/WorkerWrapperTest.java:234-267 | unblocking leaves alone a dependent with a prerequisite that has not SUCCEEDED |
| WorkerWrapperProperties.SuccessReleasesDependent | work/workmanager/src/androidTest/java/androidx/work/impl/WorkerWrapperTest.java:259-266 | after a success and the sweep, the ready dependent is ENQUEUED, complete, and handed to the schedulers |
| WorkerWrapperProperties.RunSuccessUnblocksDependent | work/workmanager/src/androidTest/java/androidx/work/impl/WorkerWrapperTest.java:234-267 | when the last unfinished prerequisite succeeds, "all prerequisites complete" flips from false to true, the dependent becomes ENQUEUED with period start `now`, and schedule(...) gets it |
| WorkerWrapperProperties.RunSuccessKeepsPartlyBlockedDependent | work/workmanager/src/androidTest/java/androidx/work/impl/WorkerWrapperTest.java:234-267 | a dependent with another prerequisite not yet SUCCEEDED stays BLOCKED and incomplete |
| WorkerWrapperProperties.PermanentFailureRows | work/workmanager/src/androidTest/java/androidx/work/impl/WorkerWrapperTest.java:382-410 | a permanent failure is: mark the work, fail the cascade, report (false, false), sweep |
| WorkerWrapperProperties.FailureCascadeRows | work/workmanager/src/androidTest/java/androidx/work/impl/WorkerWrapperTest.java:382-410 | after the cascade and the sweep, reached works are FAILED except CANCELLED ones, which stay CANCELLED, and unreached works keep their state |
| WorkerWrapperProperties.RunFailureCascades | work/workmanager/src/androidTest/java/androidx/work/impl/WorkerWrapperTest.java:382-410 | a failing one-shot work or an unresolvable class fails the work and every transitive dependent but the CANCELLED ones; CANCELLED works and unreached works keep their state |
| WorkerWrapperProperties.RunFailureFailsDirectDependent | work/workmanager/src/androidTest/java/androidx/work/impl/WorkerWrapperTest.java:406-409 | every non-cancelled direct dependent of a failed work is FAILED |
| WorkerWrapperProperties.RunPassesOutputToDependent | work/workmanager/src/androidTest/java/androidx/work/impl/WorkerWrapperTest.java:271-295 | after ChainedArgumentWorker succeeds, its only dependent's prerequisite inputs are exactly `[getChainedArguments()]` |
| WorkerWrapperProperties.RunEchoingWorkerOutputsInput | work/workmanager/src/androidTest/java/androidx/work/impl/WorkerWrapperTest.java:304-335 | an EchoingWorker without prerequisites runs on its own input and outputs exactly that input |
| WorkerWrapperProperties.RunMergesPrerequisiteOutputs | work/workmanager/src/androidTest/java/androidx/work/impl/WorkerWrapperTest.java:299-347 | with ArrayCreatingInputMerger, an empty own input and exactly two prerequisite rows anywhere in the table whose works output one key, the worker's input has size 1 and the key's array holds both values in any order |
| WorkerWrapperProperties.RunPeriodic | work/workmanager/src/androidTest/java/androidx/work/impl/WorkerWrapperTest.java:414-500 | periodic success or failure re-enqueues with attempt count 0 and period start advanced by the interval, and reports (success, false) |
| WorkerWrapperProperties.RunRetry | work/workmanager/src/androidTest/java/androidx/work/impl/WorkerWrapperTest.java:504-522 | a retry leaves the work ENQUEUED with one more attempt and reports (false, true) |
| WorkerWrapperProperties.RunSchedulesPendingWork | work/workmanager/src/androidTest/java/androidx/work/impl/WorkerWrapperTest.java:583-619 | whatever the worker does, the run makes one listener call and then one schedule(...) call; that call holds only ENQUEUED, not yet scheduled work, and it holds every unrelated ENQUEUED, unscheduled work, which is then marked |
| WorkerWrapperProperties.RunLoneWorkCallsScheduler | work/workmanager/src/androidTest/java/androidx/work/impl/WorkerWrapperTest.java:526-537 | a succeeding one-shot work that nothing depends on, in a store where no other work awaits scheduling, makes the no-argument schedule() call right after its (true, false) report |
| WorkerWrapperProperties.PreSweepUntouched | work/workmanager/src/androidTest/java/androidx/work/impl/WorkerWrapperTest.java:583-619 | before the scheduler sweep, a run that passes the state check leaves every row outside the work's transitive dependents unchanged |
| WorkerWrapperProperties.SweptFrame | work/workmanager/src/androidTest/java/androidx/work/impl/WorkerWrapperTest.java:583-619 | a run that passes the state check keeps the store well formed, the table and ids unchanged, and the trace growing |
| WorkerWrapperProperties.RunFrame | work/workmanager/src/androidTest/java/androidx/work/impl/WorkerWrapperTest.java:96-619 | any run keeps the store well formed, the dependency table and ids unchanged, the earlier trace intact, and works it does not reach unchanged except for their scheduled mark |
| ViewFinder.ViewFinderUseCase.SetOnViewFinderOutputUpdateListener | camera/core/src/main/java/androidx/camera/core/ViewFinderUseCase.java:118-135 | the listener changes and the trace grows by `ListenerChangeEffects`; `surfaceDispatched` becomes true exactly when a first listener receives the latest output |
| ViewFinder.ListenerChangeEffectsMeaning | camera/core/src/main/java/androidx/camera/core/ViewFinderUseCase.java:118-135 | "active" exactly from none to a listener; "inactive" exactly from a listener to none; a SurfaceTexture reset exactly when swapping listeners while an output exists; onUpdated exactly to an arriving first listener; no release; nothing when the listener stays |
| ViewFinder.ListenerChangeKeepsActivity | camera/core/src/main/java/androidx/camera/core/ViewFinderUseCase.java:118-129 | after a listener change the camera was last told "active" exactly when a listener is set |
| ViewFinder.ViewFinderUseCase.RemoveViewFinderOutputListener | camera/core/src/main/java/androidx/camera/core/ViewFinderUseCase.java:143-145 | exactly the effects of setting no listener |
| ViewFinder.ViewFinderUseCase.GetOnViewFinderOutputUpdateListener | camera/core/src/main/java/androidx/camera/core/ViewFinderUseCase.java:154-156 | returns the listener last set and changes nothing |
| ViewFinder.ViewFinderUseCase.UpdateOutput | camera/core/src/main/java/androidx/camera/core/ViewFinderUseCase.java:389-440 | the new output carries the current rotation; an output equal to the latest changes nothing; otherwise the output is `Published` |
| ViewFinder.ViewFinderUseCase.PublishOutput | camera/core/src/main/java/androidx/camera/core/ViewFinderUseCase.java:411-438 | a new texture releases the old one only if it was never dispatched; a listener gets notifyReset (new texture only) and then onUpdated; `surfaceDispatched` follows |
| ViewFinder.ViewFinderUseCase.RetireLatestTexture | camera/core/src/main/java/androidx/camera/core/ViewFinderUseCase.java:418-427 | on a texture change the old texture is released exactly when it exists and was not dispatched, `surfaceDispatched` resets, and no dispatched texture is released |
| ViewFinder.RelativeRotation | camera/core/src/main/java/androidx/camera/core/ViewFinderUseCase.java:393-405 | the rotation a rebuilt output carries: the camera's sensor rotation for the target rotation (ROTATION_0 when none is stored) when camera info is available, otherwise the previous output's rotation, or 0 when there is none |
| ViewFinder.ViewFinderUseCase.InvalidateMetadata | camera/core/src/main/java/androidx/camera/core/ViewFinderUseCase.java:379-386 | with no output nothing happens; otherwise the output is rebuilt with the current rotation and re-dispatched only if it changed and a listener is set |
| ViewFinder.ViewFinderUseCase.SetTargetRotation | camera/core/src/main/java/androidx/camera/core/ViewFinderUseCase.java:278-289 | the configuration is rebuilt exactly when the stored rotation is missing, INVALID_ROTATION, or different; then the output, if any, is rebuilt with the new rotation and re-dispatched exactly when it changed and a listener is set, and `surfaceDispatched` follows; otherwise nothing changes |
| ViewFinder.ViewFinderUseCase.Clear | camera/core/src/main/java/androidx/camera/core/ViewFinderUseCase.java:328-340 | releases the checked texture, removes the listener, notifies inactive, and releases the latest texture only when it was never dispatched |
| ViewFinder.DispatchedTexturesMeaning | camera/core/src/main/java/androidx/camera/core/ViewFinderUseCase.java:429-438 | a texture is dispatched exactly when some onUpdated call in the trace carried it |
| ViewFinder.NoReleaseAfterDispatchMeaning | camera/core/src/main/java/androidx/camera/core/ViewFinderUseCase.java:421-424 | the safety rule, pairwise: no release in the trace names a texture an earlier onUpdated carried |

## Left out

- `workerFromWorkSpec` and the worker's application context: these construct workers by
  reflection. Only whether the worker and merger class names resolve is modelled, as an `Option`.
- `testRunning` and `SleepTestWorker`: these depend on thread executors and sleep timing. The
  RUNNING branch itself is modelled.
- Database transactions, DAO queries and mocks: the store is a map and a sequence, and each run is
  one atomic step.
- The clock: `now` is a parameter of `Run`.
- Integer widths: Java's `long` period start time and interval, and its `int` run attempt count,
  are unbounded `int` and `nat` here. Overflow of these counters is not modelled.
- RunSuccessUnblocksDependent: it states that the unblocked work's period start time equals `now`,
  the clock reading the run takes. The test's "strictly after the time before the run" then depends
  on the clock, which is not modelled.
- Schedulers are reduced to a flag saying whether any are present. The one `schedule(...)` call
  receives a set of `WorkSpec`s: the store is a map, so the order of the arguments is not modelled.
- The WorkerWrapper implementation is not part of this model. Where the test suite is silent, the
  model makes these choices of its own:
  - the worker input is the work's own input merged with its prerequisites' outputs, or the own
    input alone if it has no prerequisites;
  - the scheduler sweep follows every run that passes the state check;
  - a retry keeps the period start time;
  - only BLOCKED dependents are unblocked;
  - `ChainedArgumentWorker`'s output is a fixed value.
- RunUnresolvableClass: an unresolvable worker or input merger class fails the work without
  counting a run attempt. This is also the model's own choice. The real wrapper may count the
  attempt before it resolves the classes, so the model may differ from it on that count. The tests
  at `WorkerWrapperTest.java:177-202` do not check it.
- ViewFinderUseCase camera control, `onSuggestedResolutionUpdated`, `attachToCamera`,
  `getDefaultBuilder`, the default configuration, and the `Handler`/`Looper` threading: these wrap
  CameraX and the operating system.
- `super.clear()` is not modelled. The internals of `CheckedSurfaceTexture` are not part of this
  model: its release and reset are recorded as effects.
- Camera info is a parameter. `Some(degreesFor)` is `getSensorRotationDegrees`; `None` models
  `CameraInfoUnavailableException`, after which only the fallback rotation is used (logging is not
  modelled).
- UpdateOutput: it requires that a texture handed in is either the latest one or one that was
  never dispatched or released before. A SurfaceTexture comes freshly from `CheckedSurfaceTexture`,
  whose source is not part of this model. The no-release-after-dispatch rule in `Valid()` rests on
  this requirement.
- Clear keeps the latest output, as the source does. The model therefore says nothing about a use
  case that is used again after `clear`.
