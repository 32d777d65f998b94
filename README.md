# Lumberyard core pieces in Dafny

This project models four small parts of the Lumberyard engine, and proves properties of each:

- **`AZ::LegacyJobExecutor`** (module `Jobs`, `legacy_job_executor.dfy`). This is a counter of
  outstanding jobs and completion fences, plus one optional post job. The post job is started on
  its own executor when the count next drops to zero. Each public operation, and each run of a
  started job, is one atomic step. The job system that runs started jobs is the class `JobSystem`. It holds the started
  jobs whose `Process` has not run yet, and each job carries the executor it reports to. Its
  invariant ties every executor's count to exactly what that executor waits for: its pending jobs
  plus its unpopped fences. No underflow follows from that invariant. `WaitForCompletion` is shown
  to terminate in a closed world, where nothing starts jobs or pushes fences while it waits.
- **The `AZ::Test` filter and environment functions** (module `AzTest`, `az_test.dfy`). The gtest
  filter string is edited by `AddExcludeFilter` and `AddIncludeFilter` and the four functions
  composed from them. The list of global test environments is filled by `addTestEnvironments`.
  Besides the exact strings, the lemmas state what each edit does to the filter's two pattern
  lists:
  - the positive patterns, before the first `-`;
  - the negative patterns, after it.
- **`AZ::Component`** (module `Components`, `component.dfy`). This covers the link to the owning
  entity and the component id: a random id is drawn on first attach, kept while attached, and
  reset on detach. It also covers configuration, which is allowed only while the entity is not
  yet activated. The random draw is a parameter of `SetEntity`.
- **`GraphCanvas::RootGraphicsItem`** (module `RootGraphics`, `root_graphics_item.dfy`). This
  covers:
  - the grid step;
  - the resolution of the displayed state, in priority order: forced state, then the enabled-state
    override, then the internal state;
  - the leave-old/enter-new selector transition and its notification;
  - the integer snapping arithmetic of `CalculatePosition`.

  The selector states on the styled entity are kept in a set, and the bus notifications in a
  sequence.

`wrappers.dfy` holds the `Option` datatype shared by the modules.

## Model

Source paths are relative to the repository root.

| member | source | states |
|---|---|---|
| Jobs.LegacyJobExecutor.constructor | dev/Code/Framework/AzCore/AzCore/Jobs/LegacyJobExecutor.h:30 | A new executor has count 0, an empty post-job slot and no fence. |
| Jobs.LegacyJobExecutor.StartJob | dev/Code/Framework/AzCore/AzCore/Jobs/LegacyJobExecutor.h:39-44 | The job reporting to this executor is started. The count rises by one, the slot is unchanged, and the job system invariant is kept. |
| Jobs.LegacyJobExecutor.StartJobInternal | dev/Code/Framework/AzCore/AzCore/Jobs/LegacyJobExecutor.h:133-141 | The count rises by exactly one and the job is appended to the started jobs, so every count still equals what its executor waits for. |
| Jobs.LegacyJobExecutor.SetPostJob | dev/Code/Framework/AzCore/AzCore/Jobs/LegacyJobExecutor.h:48-60 | Allowed only with an empty slot and count 0. The slot then holds a job for the named executor, and the count is unchanged. |
| Jobs.LegacyJobExecutor.ClearPostJob | dev/Code/Framework/AzCore/AzCore/Jobs/LegacyJobExecutor.h:62-66 | The slot is emptied. The job is not started and the count is unchanged. |
| Jobs.LegacyJobExecutor.Reset | dev/Code/Framework/AzCore/AzCore/Jobs/LegacyJobExecutor.h:68-71 | Allowed only while not running, so the count is 0. |
| Jobs.LegacyJobExecutor.PushCompletionFence | dev/Code/Framework/AzCore/AzCore/Jobs/LegacyJobExecutor.h:84-90 | The count and the number of pushed fences both rise by one. |
| Jobs.LegacyJobExecutor.PopCompletionFence | dev/Code/Framework/AzCore/AzCore/Jobs/LegacyJobExecutor.h:92-96 | Goes through the completion path and pops one fence. Above count 1 the count drops by one and the slot and the started jobs are untouched. At count 1 the slot is emptied: an empty slot leaves count 0 and the started jobs unchanged; a filled one starts its job on the executor `SetPostJob` named, whose count rises by one. |
| Jobs.LegacyJobExecutor.JobCompleteUpdate | dev/Code/Framework/AzCore/AzCore/Jobs/LegacyJobExecutor.h:106-131 | Requires count > 0. The count drops by exactly one. Above zero the slot and the started jobs are untouched. At zero the slot is emptied, and its job is started on the executor `SetPostJob` named, whose count rises by one (back to 1 when that is this executor). |
| Jobs.StartOnExecutor | dev/Code/Framework/AzCore/AzCore/Jobs/LegacyJobExecutor.h:165-168 | The job is started on its own executor: that count rises by one and the job is appended to the started jobs. |
| Jobs.JobSystem.Process | dev/Code/Framework/AzCore/AzCore/Jobs/LegacyJobExecutor.h:170-175 | Running a started job logs its function and reports exactly one completion to its executor. The post job is started exactly when that was the last outstanding job. No other executor's slot changes. The work left strictly decreases. |
| Jobs.JobSystem.Take | dev/Code/Framework/AzCore/AzCore/Jobs/LegacyJobExecutor.h:170-173 | The job leaves the started jobs and its function is logged. Its executor is then owed exactly one completion, and the work left drops by one. |
| Jobs.JobSystem.Report | dev/Code/Framework/AzCore/AzCore/Jobs/LegacyJobExecutor.h:174 | One completion is reported to the executor that is owed it. The invariant is restored, and the work left is unchanged: a started post job replaces its filled slot. No other executor's slot changes. |
| Jobs.LegacyJobExecutor.WaitForCompletion | dev/Code/Framework/AzCore/AzCore/Jobs/LegacyJobExecutor.h:73-82 | Returns only with count 0 and no started job of this executor left pending. The loop terminates while no other thread starts jobs or pushes fences. |
| Jobs.LegacyJobExecutor.IsRunning | dev/Code/Framework/AzCore/AzCore/Jobs/LegacyJobExecutor.h:98-103 | True exactly when the count is non-zero. `IdleIffNothingOutstanding` says what that means in jobs and fences. |
| Jobs.IdleIffNothingOutstanding | dev/Code/Framework/AzCore/AzCore/Jobs/LegacyJobExecutor.h:98-103 | `IsRunning` is false exactly when no job of the executor is pending and no fence is pushed. |
| AzTest.TestGlobals.AddExcludeFilter | dev/Code/Framework/AzTest/AzTest/AzTest.cpp:51-76 | The filter becomes `"-" + name` from `"*"`, `filter + ":-" + name` when it has no `-`, and `filter + ":" + name` otherwise. |
| AzTest.ExcludeFromWildcard | dev/Code/Framework/AzTest/AzTest/AzTest.cpp:55-58 | Excluding from `"*"` leaves no positive pattern and exactly `[name]` as the negative ones. |
| AzTest.ExcludeWithoutDash | dev/Code/Framework/AzTest/AzTest/AzTest.cpp:63-68 | Excluding from a filter without `-` keeps its positive patterns and makes `[name]` the negative ones. |
| AzTest.ExcludeWithDash | dev/Code/Framework/AzTest/AzTest/AzTest.cpp:69-73 | Excluding from a filter with a `-` keeps the positive patterns and appends `name` to the negative ones; no second marker appears. |
| AzTest.ExcludeMeaning | dev/Code/Framework/AzTest/AzTest/AzTest.cpp:51-76 | In every case, excluding appends `name` to the negative patterns. The positive patterns are kept, or are empty (every test) from the wildcard. |
| AzTest.TestGlobals.AddIncludeFilter | dev/Code/Framework/AzTest/AzTest/AzTest.cpp:78-93 | The filter becomes `name` from `"*"` and `name + ":" + filter` otherwise. |
| AzTest.IncludeMeaning | dev/Code/Framework/AzTest/AzTest/AzTest.cpp:78-93 | Including replaces the wildcard by `[name]` and otherwise prepends `name` to the positive patterns. The negative patterns are kept. |
| AzTest.TestGlobals.ExcludeIntegTests | dev/Code/Framework/AzTest/AzTest/AzTest.cpp:95-100 | Two exclusions in order; from `"*"` the filter is `"-INTEG_*:Integ_*"`. |
| AzTest.IntegExclusionFromWildcard | dev/Code/Framework/AzTest/AzTest/AzTest.cpp:96-100 | The two exclusions applied to `"*"` give `"-INTEG_*:Integ_*"`. |
| AzTest.ExcludeIntegMeaning | dev/Code/Framework/AzTest/AzTest/AzTest.cpp:96-100 | From any filter, both integration prefixes are appended to the negative patterns, in order. |
| AzTest.TestGlobals.RunOnlyIntegTests | dev/Code/Framework/AzTest/AzTest/AzTest.cpp:102-107 | Two inclusions in order; from `"*"` the filter is `"Integ_*:INTEG_*"`. |
| AzTest.RunOnlyIntegMeaning | dev/Code/Framework/AzTest/AzTest/AzTest.cpp:103-107 | The negative patterns are kept. From a non-wildcard filter the positive patterns gain `Integ_*` and then `INTEG_*` in front. |
| AzTest.TestGlobals.FilterOutSuites | dev/Code/Framework/AzTest/AzTest/AzTest.cpp:109-112 | Excludes exactly `"Suite_*"`, which is appended to the negative patterns. |
| AzTest.TestGlobals.FilterToSpecificSuite | dev/Code/Framework/AzTest/AzTest/AzTest.cpp:114-119 | Includes exactly `"Suite_" + s + "*"`. For a plain suite name the negative patterns are kept. |
| AzTest.TestGlobals.AddTestEnvironment | dev/Code/Framework/AzTest/AzTest/AzTest.cpp:22-25 | The environment is appended to the registered list. |
| AzTest.TestGlobals.AddTestEnvironments | dev/Code/Framework/AzTest/AzTest/AzTest.cpp:28-47 | An empty list registers exactly the default trace-bus hook. Otherwise the non-null entries are appended in input order. |
| AzTest.NonNullMembers | dev/Code/Framework/AzTest/AzTest/AzTest.cpp:38-45 | An environment is registered exactly when it occurs as a non-null entry, and no more entries are registered than given. |
| Components.Component.constructor | dev/Code/Framework/AzCore/AzCore/Component/Component.cpp:26-30 | A new component has no entity, the invalid id, and the base configuration hooks. |
| Components.Component.GetEntityId | dev/Code/Framework/AzCore/AzCore/Component/Component.cpp:48-57 | The entity's id when attached; a default `EntityId` when not. |
| Components.Component.SetConfiguration | dev/Code/Framework/AzCore/AzCore/Component/Component.cpp:73-92 | False past `ES_INIT`. Otherwise the answer of the component's `ReadInConfig`. True only if `ReadInConfig` accepts. |
| Components.Component.GetConfiguration | dev/Code/Framework/AzCore/AzCore/Component/Component.cpp:97-109 | The answer of the component's `WriteOutConfig`, in every entity state (unlike `SetConfiguration`). With the base hook it is false. |
| Components.BaseReadInConfig | dev/Code/Framework/AzCore/AzCore/Component/Component.cpp:114-119 | The default `ReadInConfig` accepts no configuration. |
| Components.BaseWriteOutConfig | dev/Code/Framework/AzCore/AzCore/Component/Component.cpp:124-129 | The default `WriteOutConfig` writes no configuration. |
| Components.BaseComponentHasNoConfiguration | dev/Code/Framework/AzCore/AzCore/Component/Component.cpp:97-129 | With the default `ReadInConfig`/`WriteOutConfig`, both `SetConfiguration` and `GetConfiguration` return false. |
| Components.SetEntityStep | dev/Code/Framework/AzCore/AzCore/Component/Component.cpp:134-155 | Re-setting the same entity changes nothing. Detaching resets the id to invalid. Attaching draws a new id only when the id is invalid and keeps a valid one. A detached component never holds a valid id. |
| Components.Component.SetEntity | dev/Code/Framework/AzCore/AzCore/Component/Component.cpp:134-155 | The new (entity, id) pair is the step above applied to the old one, and the detached-means-invalid invariant is kept. |
| Components.MovesKeepId | dev/Code/Framework/AzCore/AzCore/Component/Component.cpp:140-149 | A valid id survives any series of moves from entity to entity without a detach. |
| Components.ReattachDrawsFreshId | dev/Code/Framework/AzCore/AzCore/Component/Component.cpp:144-153 | Detaching and then attaching again gives the newly drawn id. |
| Components.StepsKeepConsistent | dev/Code/Framework/AzCore/AzCore/Component/Component.cpp:137-154 | Every series of `SetEntity` calls keeps a detached component's id invalid. |
| RootGraphics.RootGraphicsItem.constructor | dev/Gems/GraphCanvas/Code/Include/GraphCanvas/Widgets/RootGraphicsItem.h:59-72 | Grid 1×1, no snapping, `ES_Enabled`, no forced state, internal and actual state `Neutral`, no selector. |
| RootGraphics.GridStep | dev/Gems/GraphCanvas/Code/Include/GraphCanvas/Widgets/RootGraphicsItem.h:127-148 | A non-negative size gives its truncation (r ≤ v < r + 1); a negative one gives 1. |
| RootGraphics.RootGraphicsItem.SetGridSize | dev/Gems/GraphCanvas/Code/Include/GraphCanvas/Widgets/RootGraphicsItem.h:127-148 | Each grid step is the truncated size component, or 1 for a negative one. |
| RootGraphics.ZeroStepAccepted | dev/Gems/GraphCanvas/Code/Include/GraphCanvas/Widgets/RootGraphicsItem.h:129-131 | A size in [0, 1) is accepted and gives step 0, which snapping cannot use. |
| RootGraphics.RootGraphicsItem.SetSnapToGridEnabled | dev/Gems/GraphCanvas/Code/Include/GraphCanvas/Widgets/RootGraphicsItem.h:111-120 | Turning snapping on moves the item to its calculated position; turning it off leaves the position. |
| RootGraphics.SelectorOf | dev/Gems/GraphCanvas/Code/Include/GraphCanvas/Widgets/RootGraphicsItem.h:479-555 | Every state but `Neutral` has a selector. `Inspection` and `GroupHighlight`, and only they, share `Hovered`. |
| RootGraphics.RootGraphicsItem.Enter | dev/Gems/GraphCanvas/Code/Include/GraphCanvas/Widgets/RootGraphicsItem.h:445-473 | Adds the state's selector, if any. |
| RootGraphics.RootGraphicsItem.Leave | dev/Gems/GraphCanvas/Code/Include/GraphCanvas/Widgets/RootGraphicsItem.h:413-441 | Removes the state's selector, if any. |
| RootGraphics.DesiredDisplayState | dev/Gems/GraphCanvas/Code/Include/GraphCanvas/Widgets/RootGraphicsItem.h:386-407 | A forced state wins. Otherwise, when not enabled and the internal state ranks at or below `Disabled`, the result is `Disabled` for `ES_Disabled` and `PartialDisabled` otherwise. Otherwise the internal state. |
| RootGraphics.DesiredIsStable | dev/Gems/GraphCanvas/Code/Include/GraphCanvas/Widgets/RootGraphicsItem.h:388-407 | Resolving an already resolved state gives it back. |
| RootGraphics.RootGraphicsItem.UpdateActualDisplayState | dev/Gems/GraphCanvas/Code/Include/GraphCanvas/Widgets/RootGraphicsItem.h:386-477 | Afterwards the shown state is the resolved one and the selectors are exactly its selector. One (old, new) notification is sent, and only if the state changed. |
| RootGraphics.RootGraphicsItem.OnStateChanged | dev/Gems/GraphCanvas/Code/Include/GraphCanvas/Widgets/RootGraphicsItem.h:156-159 | A change of the forced state re-resolves the shown state. |
| RootGraphics.RootGraphicsItem.SetEnabledState | dev/Gems/GraphCanvas/Code/Include/GraphCanvas/Widgets/RootGraphicsItem.h:232-243 | The current value changes nothing. A new value is stored, the shown state is re-resolved, and then one enabled-changed notification follows. |
| RootGraphics.RootGraphicsItem.SetDisplayState | dev/Gems/GraphCanvas/Code/Include/GraphCanvas/Widgets/RootGraphicsItem.h:254-261 | The current value changes nothing. A new value is stored and the shown state re-resolved. |
| RootGraphics.RootGraphicsItem.OnAltModifier | dev/Gems/GraphCanvas/Code/Include/GraphCanvas/Widgets/RootGraphicsItem.h:264-274 | The internal state becomes `Deletion` with Alt held and `Inspection` without it. |
| RootGraphics.DisabledItemLooksDisabled | dev/Gems/GraphCanvas/Code/Include/GraphCanvas/Widgets/RootGraphicsItem.h:394-407 | An unforced item that is not enabled shows the disabled look for its enabled state, or a state ranked above `Disabled`. |
| RootGraphics.SnapCoordinate | dev/Gems/GraphCanvas/Code/Include/GraphCanvas/Widgets/RootGraphicsItem.h:566-589 | For either sign, the snapped coordinate is a multiple of the step within half a step of the input. |
| RootGraphics.SnapIsNearest | dev/Gems/GraphCanvas/Code/Include/GraphCanvas/Widgets/RootGraphicsItem.h:566-589 | No multiple of the step is closer to the input than the snapped coordinate. |
| RootGraphics.SnapKeepsGridPoints | dev/Gems/GraphCanvas/Code/Include/GraphCanvas/Widgets/RootGraphicsItem.h:566-589 | A coordinate on the grid is kept, so snapping is idempotent. |
| RootGraphics.SnapIsOdd | dev/Gems/GraphCanvas/Code/Include/GraphCanvas/Widgets/RootGraphicsItem.h:568-577 | The negative branch mirrors the positive one: snapping `-x` gives minus the snap of `x`. |
| RootGraphics.RootGraphicsItem.CalculatePosition | dev/Gems/GraphCanvas/Code/Include/GraphCanvas/Widgets/RootGraphicsItem.h:557-595 | With snapping on and no animation running, each coordinate becomes a multiple of its step within half a step. Otherwise the position is kept. |

## Left out

- Threads, the mutex, the condition variable, spurious wake-ups and the profiler stall are left out. Each public operation of `LegacyJobExecutor`, and each run of a started job, is one atomic step, even where the source takes and releases the lock more than once.
- `Job::Start` and the scheduler are left out. A started job waits in `JobSystem.pending`, and any pending job may run next.
- Auto-delete and the allocator of `JobFunctionExecutorHelper` are left out. The process function itself is an opaque `WorkId`.
- Jobs.LegacyJobExecutor.WaitForCompletion: the waiting thread does not run jobs itself. Here each wake-up of the wait is a worker running one pending job. The method requires that no completion fence is pushed, because only another thread could pop it.
- Jobs.LegacyJobExecutor.WaitForCompletion: termination holds only in a closed world. Process functions are opaque `WorkId`s that start nothing, and no other thread calls `StartJob`, `PushCompletionFence` or `SetPostJob` during the wait. In the source, such calls can keep the count above zero for ever.
- Jobs.LegacyJobExecutor.JobCompleteUpdate: the locked decrement and the later start of the post job (outside the lock, taking the post executor's own lock) are one step here. In the source there is a moment when the count is 0, waiters are woken, and the detached post job is not yet counted anywhere. A `WaitForCompletion` or destructor on the post job's executor can return in that moment, before the post job is started. The model has no such state, so it does not show that race.
- Jobs.LegacyJobExecutor.PopCompletionFence: requires a matching `PushCompletionFence`, kept in the ghost field `fences`. The source only asserts that the count is non-zero.
- Jobs.LegacyJobExecutor.JobCompleteUpdate: `m_jobCount` is a 32-bit unsigned integer. The invariant rules out underflow on the decrement, but increments past 2^32 (in `PushCompletionFence` and `StartJobInternal`) are not modelled: the count is unbounded.
- The destructor (`LegacyJobExecutor.h:34-37`) is `WaitForCompletion`. It has no member of its own here.
- `AzUnitTestMain::Run`, `RunTestsInLib`, `ApplyGlobalParameters` and `printUnusedParametersWarning` are left out. They depend on command-line parameter helpers, dynamic library loading, console output and the gtest runtime.
- The test environments are values. `UnitTest::TraceBusHook` and the caller's environments are not modelled beyond their identity, and a null entry is `None`.
- The `Sfmt` random generator is replaced by the parameter `rand` of `SetEntity`. The model does not assume that the draw differs from `InvalidComponentId`.
- `Entity` internals, the destructor's `RemoveComponent` call, `GetNamedEntityId` (entity names), reflection and serialization, `ReleaseDescriptor` and warning texts are left out.
- `Entity::State` and `InvalidComponentId` are declared in headers that are not part of this model. The states take their declaration order, and the invalid id is 0.
- Components.Component.SetConfiguration: a derived `ReadInConfig` is a pure function of the configuration. A derived component that reads the configuration into its own state has that effect left out, and so do the warning texts.
- The enum order behind `desiredDisplayState <= Disabled` is declared in a header that is not part of this model. It is the abstract function `rank` of each item.
- The forced-state controller is reduced to the state it holds (an `Option`). `OnStateChanged` receives that state.
- Animation is left out: `OnTick`, `AnimatePositionTo`, `CancelAnimation` and the float time and interpolation they use. Only whether an animation is running (`animating`) is kept, because it switches snapping off.
- RootGraphics.RootGraphicsItem.CalculatePosition: positions are integers already offset by the anchor point. The float bounding-rect offset, the float-to-int truncation of the input and integer overflow are left out. The source adds or subtracts half a step in `float`, which is exact only for coordinates below 2^24 in magnitude; the model's arithmetic is exact.
- RootGraphics.RootGraphicsItem.CalculatePosition: a grid step of 0 makes the source's `%` undefined, so snapping requires positive steps. `ZeroStepAccepted` shows that `SetGridSize` lets such a step through.
- The Qt event handlers are left out (hover, mouse, `itemChange`, `OnDeleteItem`), as are the bus connections and the resize-to-grid flag. Hover enter and leave set the display state as `OnAltModifier` and `SetDisplayState(Neutral)` do.
- The notifications are recorded in `notifications` in the order they are sent. Their receivers are not modelled.
- RootGraphics.RootGraphicsItem.SetEnabledState: the virtual `OnEnabledStateChanged` hook is left out. It does nothing in the base class, and derived overrides are not part of this model.
