# OpenEmu PPSSPP core: the emulation-thread coordinator

This project models the host glue of the PPSSPP core for OpenEmu, in
`NativeApp.cpp`. Its one piece of real logic is the coordinator in namespace
`OpenEmuCoreThread`. The coordinator keeps three variables, `emuThreadState`
(a seven-value enum), `threadStarted` and the `std::thread emuThread`. Two
threads change those variables:

- the host thread calls EmuThreadStart, EmuThreadStop, EmuThreadPause,
  the dispatcher NativeSetThreadState and the render tick NativeRender;
  the file also defines a `static` EmuThreadJoin that nothing calls, so the
  model's `JoinCall` is a call the program never makes;
- the worker thread runs EmuThreadFunc, a `while (true) switch` over the
  state.

The project also models the small pure helpers of the same file:
`removePath`, the SYSPROP_LANGREGION branch of `System_GetProperty`, and the
`System_GetPropertyInt` and `System_GetPropertyBool` tables.

The model has four modules:

- `NativeSystem`: the pure helpers, as functions with contracts. The OS
  locale is a parameter, and so is whether the build defines `GOLD`.
- `EmuCoreThread`: the coordinator as values.
  - A record `Coord` holds the state, `threadStarted`, whether `emuThread`
    holds a joinable thread (`threadLive`), whether that thread is still in
    EmuThreadFunc's loop (`workerActive`), and a log of the calls made into
    code the model does not see. Those calls are one emulated frame,
    ThreadStart, ThreadFrame, SwapBuffers, StopThread, ThreadEnd, the spawn
    and the join.
  - Each operation is a function giving the record afterwards and an
    `Outcome`. The outcome is `Done`, `Ignored` (the guard failed), `Hung`
    (a wait did not end within the oracle supplied), `Terminated` (a
    `std::thread` move-assigned over a joinable one calls `std::terminate`)
    or `JoinFailed` (a join on an empty handle throws).
  - Lemmas state each operation's effect.
  - The drain primitive `ctx->ThreadFrame()` is an oracle. EmuThreadStop
    takes the successive results of its calls. EmuThreadPause takes, for
    each of its sleeps, whether the worker runs during it.
- `EmuCoreRuns`: sequences of host calls and worker iterations.
  - Thread accounting holds on every run: at most one emulation thread, and
    each thread joined once and stopped once.
  - `threadStarted` is never cleared.
  - A PAUSED coordinator is quiet.
  - Without a worker, no frame ever runs.
  - A whole start / frames / pause / resume / stop session has exact
    counts.
- `EmuCoreCoordinator`: the same coordinator as a class whose methods
  update its fields in place, in the order the source does.
  - Each method is proved to have exactly the effect of the matching
    function of `EmuCoreThread`.
  - Every method except DrainFrames, the drain loop inside EmuThreadStop,
    keeps the thread accounting (`Valid()`).

Three sequences of calls end with the process terminated, and lemmas record
that this is what the code does:

- Two START_REQUESTED requests made before the worker's first iteration
  both reach EmuThreadStart, because `threadStarted` is still false. The
  second request assigns a new thread over the joinable one
  (`DoubleStartRequestTerminates`). Once the worker has run one iteration,
  the same request is only stored (`StartRequestAfterFirstIterationIsStored`).
- A pause made before the worker's first iteration finds START_REQUESTED,
  not RUNNING, and is ignored. The next EmuThreadStart then also assigns a
  new thread over the joinable one (`StartPauseStartTerminates`).
- A QUIT_REQUESTED request stored before the worker's first iteration
  sends the worker down the `default` branch, so it exits with
  `threadStarted` still false and the handle still joinable. The next
  START_REQUESTED request therefore reaches EmuThreadStart and assigns a
  new thread over the joinable one
  (`ExitBeforeFirstIterationThenStartTerminates`).

So a start / pause / start / stop session ends STOPPED only under two
conditions: at least one frame runs before the pause, and the worker
iterates between the resume and the stop (`StartPauseResumeStop`). With no
frame before the pause the process terminates
(`SessionWithoutFramesTerminates`). With frames but a stop that comes
before the worker's next iteration, the stop finds START_REQUESTED and is
ignored. The session then returns normally in START_REQUESTED, with the
worker still held and still looping (`StopBeforeResumeIsIgnored`,
`StopBeforeResumeKeepsWorker`).

## Model

| member | source | states |
|---|---|---|
| NativeSystem.LastIndexOf | NativeApp.cpp:72 | `strrchr`: -1 when the character is absent, otherwise an index holding it with no later occurrence |
| NativeSystem.IndexOf | NativeApp.cpp:398-399 | `find(ch, 0)`: -1 (`npos`) when absent, otherwise an index holding it with no earlier occurrence |
| NativeSystem.RemovePath | NativeApp.cpp:71-74 | the result is a suffix of the path holding no '/'; it is the whole path when the path has no '/', and otherwise is preceded by the last '/' |
| NativeSystem.LocaleToLangRegion | NativeApp.cpp:397-406 | with '_' and '.': the proper prefix ending just before the first '.'; with '_' and no '.': the whole locale; otherwise, the empty locale included: "en_US" |
| NativeSystem.LangRegionKeepsTerritory | NativeApp.cpp:397-401 | a language_TERRITORY[.codeset] locale keeps its '_' in the answer |
| NativeSystem.GetProperty | NativeApp.cpp:387-411 | "OpenEmu:" for the name, the locale's language and region for LANGREGION, "" for anything else |
| NativeSystem.GetPropertyInt | NativeApp.cpp:417-426 | positive exactly for the sample rate (44100) and the refresh rate (60000); -1 for every other property |
| NativeSystem.GetPropertyBool | NativeApp.cpp:442-455 | true exactly for the back button, and for the gold edition in a GOLD build |
| EmuCoreThread.TicksUntil | NativeApp.cpp:175-178 | the number of ThreadFrame calls the drain makes: up to and including the first false result, or every result supplied when none is false |
| EmuCoreThread.PauseRound | NativeApp.cpp:190-195 | one wait round makes one ThreadFrame call and leaves PAUSE_REQUESTED, or PAUSED when the looping worker runs during the sleep; nothing else changes |
| EmuCoreThread.WorkerEffect | NativeApp.cpp:131-156 | START_REQUESTED and RUNNING end RUNNING with exactly one more frame; PAUSE_REQUESTED and PAUSED end PAUSED with no call; every other state ends STOPPED with one StopThread and the worker gone; only START_REQUESTED sets `threadStarted` |
| EmuCoreThread.StartEffect | NativeApp.cpp:158-166 | the state always ends START_REQUESTED; ThreadStart is called exactly when the state was not PAUSED; then the process terminates exactly when a joinable thread is held, and otherwise one spawn is logged; resuming from PAUSED makes no call |
| EmuCoreThread.StopPauseGuard | NativeApp.cpp:168-187 | outside RUNNING, EmuThreadStop and EmuThreadPause change nothing at all |
| EmuCoreThread.StopHangs | NativeApp.cpp:173-178 | when no supplied ThreadFrame result is false, the drain is still running after one call per result, with QUIT_REQUESTED stored |
| EmuCoreThread.StopJoinFails | NativeApp.cpp:173-179 | after the drain, a join on an empty handle fails |
| EmuCoreThread.StopCompletes | NativeApp.cpp:168-182 | from RUNNING with a thread held and a drain whose results include false, the call completes: the drain calls, the worker's one StopThread if it was still looping, the join, and ThreadEnd last (the order of StopThread among the drain calls is the model's); the handle is empty, no frame is run, and ThreadEnd is called once |
| EmuCoreThread.PauseDrainEffect | NativeApp.cpp:190-195 | the wait loop ends PAUSED exactly when the worker is looping and runs in some sleep, with one ThreadFrame call per round up to that one; otherwise it hangs in PAUSE_REQUESTED; no other variable changes |
| EmuCoreThread.PauseEffect | NativeApp.cpp:184-196 | from RUNNING, the call returns exactly when the worker runs during a sleep; it then leaves PAUSED, in the model after at least one ThreadFrame call; it runs no frame and keeps `threadStarted` and the thread |
| EmuCoreThread.SetThreadStateRouting | NativeApp.cpp:255-262 | PAUSE_REQUESTED goes to EmuThreadPause when started, START_REQUESTED goes to EmuThreadStart when not started, anything else is stored; once started, START_REQUESTED is only stored; before that, PAUSE_REQUESTED is only stored |
| EmuCoreThread.RenderEffect | NativeApp.cpp:286-293 | never writes the state; while PAUSED no call; otherwise exactly ThreadFrame then SwapBuffers; no frame run |
| EmuCoreRuns.WorkerKeepsInv | NativeApp.cpp:131-156 | a worker iteration keeps the thread accounting |
| EmuCoreRuns.StartKeepsInv | NativeApp.cpp:158-166 | EmuThreadStart keeps the thread accounting |
| EmuCoreRuns.StopKeepsInv | NativeApp.cpp:168-182 | EmuThreadStop keeps the thread accounting |
| EmuCoreRuns.StopDrainKeepsInv | NativeApp.cpp:168-178 | from RUNNING, the state after the drain (QUIT_REQUESTED, one ThreadFrame per drain call) keeps the thread accounting, and the stop either hangs there or goes on to the join and ThreadEnd |
| EmuCoreRuns.PauseKeepsInv | NativeApp.cpp:184-196 | EmuThreadPause keeps the thread accounting |
| EmuCoreRuns.JoinKeepsInv | NativeApp.cpp:198-201 | EmuThreadJoin keeps the thread accounting |
| EmuCoreRuns.ApplyKeepsInv | NativeApp.cpp:131-201 | every entry point and worker iteration keeps the thread accounting |
| EmuCoreRuns.RunKeepsInv | NativeApp.cpp:131-201 | every sequence of entries keeps the thread accounting: a looping worker is held, each spawned thread is held or joined once, and each is looping or stopped once |
| EmuCoreRuns.AtMostOneThread | NativeApp.cpp:107-166 | from the static initial state, spawns exceed joins by at most one, and a looping worker is always held by `emuThread` |
| EmuCoreRuns.ThreadStartedNeverCleared | NativeApp.cpp:108-137 | once set, `threadStarted` stays set across any sequence of entries |
| EmuCoreRuns.PausedIsQuiet | NativeApp.cpp:143-148 | once PAUSED, render ticks and worker iterations change nothing and all return |
| EmuCoreRuns.NoWorkerNoFrames | NativeApp.cpp:286-293 | with no worker looping, render ticks and worker iterations leave the state alone and make no call other than ThreadFrame and SwapBuffers |
| EmuCoreRuns.StartRequestAfterExitRunsNothing | NativeApp.cpp:255-262 | once `threadStarted` is set and the worker has exited, a START_REQUESTED request is only stored, and no frame or spawn follows |
| EmuCoreRuns.RunningFrames | NativeApp.cpp:138-141 | while RUNNING, each worker iteration and render tick adds exactly one frame, one ThreadFrame and one SwapBuffers |
| EmuCoreRuns.FirstRounds | NativeApp.cpp:134-141 | the fresh worker's first iteration sets `threadStarted` and RUNNING, then frames follow |
| EmuCoreRuns.SessionOpening | NativeApp.cpp:158-166 | a start from the initial state spawns one thread, which then runs the frames |
| EmuCoreRuns.PauseReturns | NativeApp.cpp:184-196 | from RUNNING with the worker looping, a pause whose schedule lets the worker run returns PAUSED after the wait rounds up to that one |
| EmuCoreRuns.PauseSettles | NativeApp.cpp:184-196 | that pause, followed by render ticks and a worker iteration, leaves the coordinator PAUSED with nothing else added |
| EmuCoreRuns.ResumeAndStop | NativeApp.cpp:158-182 | from PAUSED, a start resumes the same worker in place, one frame runs, and a stop whose drain ends leaves STOPPED with the thread joined and ThreadEnd last |
| EmuCoreRuns.StopBeforeResumeIsIgnored | NativeApp.cpp:158-171 | from PAUSED, a start stores START_REQUESTED, and a stop before the worker's next iteration is ignored: no drain, no join, the worker still held and looping |
| EmuCoreRuns.SessionClosing | NativeApp.cpp:158-196 | for any pause schedule in which the worker runs and any drain that ends: pause, idle ticks, resume in place, one frame, and stop leave STOPPED, with the thread joined and ThreadEnd last |
| EmuCoreRuns.StartPauseResumeStop | NativeApp.cpp:131-196 | for `n` >= 1 rounds of frames before the pause (with none the session terminates, see SessionWithoutFramesTerminates), one worker iteration between the resume and the stop (without it the stop is ignored, see StopBeforeResumeKeepsWorker), any pause schedule in which the worker runs and any drain that ends: STOPPED, no thread, `n`+1 frames, `n` swaps, one ThreadFrame per frame-loop render tick (the idle ticks while PAUSED make none), per pause round and per drain call, and one each of ThreadStart, spawn, StopThread, join and ThreadEnd |
| EmuCoreRuns.StopBeforeResumeKeepsWorker | NativeApp.cpp:131-196 | for `n` >= 1 rounds of frames, a pause in which the worker runs, then a start and a stop with no worker iteration between them: the session returns normally in START_REQUESTED with the worker still held and looping, and no StopThread, join or ThreadEnd is made |
| EmuCoreRuns.StartPauseStartTerminates | NativeApp.cpp:158-187 | a pause before the worker's first iteration is ignored, and the next start terminates the process, whatever the pause's schedule |
| EmuCoreRuns.SessionWithoutFramesTerminates | NativeApp.cpp:158-187 | the same session with no frames before the pause terminates at its second start, whatever the oracles |
| EmuCoreRuns.DoubleStartRequestTerminates | NativeApp.cpp:158-166 | two START_REQUESTED requests before the worker's first iteration terminate the process |
| EmuCoreRuns.ExitBeforeFirstIterationThenStartTerminates | NativeApp.cpp:131-154 | a QUIT_REQUESTED request stored before the worker's first iteration makes it exit with `threadStarted` still false and the handle joinable; the next START_REQUESTED request reaches EmuThreadStart and the process terminates |
| EmuCoreRuns.StartRequestAfterFirstIterationIsStored | NativeApp.cpp:255-262 | after one worker iteration, the second request is only stored and one thread remains |
| EmuCoreCoordinator.Coordinator.constructor | NativeApp.cpp:107-109 | the static initialisers: DISABLED, not started, no thread |
| EmuCoreCoordinator.Coordinator.WorkerStep | NativeApp.cpp:131-156 | one worker iteration in place has exactly the effect of `Worker`; thread accounting kept |
| EmuCoreCoordinator.Coordinator.EmuThreadStart | NativeApp.cpp:158-166 | the effect of `Start`; the state ends START_REQUESTED; thread accounting kept |
| EmuCoreCoordinator.Coordinator.EmuThreadJoin | NativeApp.cpp:198-201 | the effect of `JoinThread`; when done, the handle is empty and no worker is looping; thread accounting kept |
| EmuCoreCoordinator.Coordinator.DrainFrames | NativeApp.cpp:175-178 | the drain loop makes `TicksUntil(results, false)` ThreadFrame calls and finishes exactly when a false result is supplied |
| EmuCoreCoordinator.Coordinator.FinishStop | NativeApp.cpp:179-181 | the join, the handle reset and ThreadEnd in place have the effect of `StopFinish`; thread accounting kept |
| EmuCoreCoordinator.Coordinator.EmuThreadStop | NativeApp.cpp:168-182 | the effect of `Stop`; thread accounting kept |
| EmuCoreCoordinator.Coordinator.PauseWaitRound | NativeApp.cpp:190-195 | one wait round in place has the effect of `PauseRound`; thread accounting kept |
| EmuCoreCoordinator.Coordinator.EmuThreadPause | NativeApp.cpp:184-196 | the effect of `Pause`; thread accounting kept |
| EmuCoreCoordinator.Coordinator.NativeSetThreadState | NativeApp.cpp:255-262 | the effect of `SetThreadState`; thread accounting kept |
| EmuCoreCoordinator.Coordinator.NativeRender | NativeApp.cpp:286-293 | the effect of `Render`; the state is not written; thread accounting kept |

## Left out

- Real threads. The model has no `std::atomic` semantics and no true
  interleavings. The worker runs only at explicit points:
  - a `WorkerTick` in a run;
  - the sleeps of EmuThreadPause's wait loop, given by the schedule oracle;
  - the join.
- Where the worker can run in EmuThreadPause. The model lets the worker
  run only during the sleeps. Two other windows are not modelled:
  - between the host's store of PAUSE_REQUESTED (NativeApp.cpp:188) and the
    first loop test (:190). A worker that stores PAUSED there makes the
    loop body never run, so the source does not promise the one
    ThreadFrame call that EmuCoreThread.PauseEffect states;
  - between the host's ThreadFrame call and its rewrite of PAUSE_REQUESTED.
- Where the worker exits in EmuThreadStop. The worker is modelled exiting
  at the join rather than during the drain. It makes the same calls, but
  not in the same order. In the source the drain is what lets the worker
  exit (NativeApp.cpp:176), so its StopThread comes before the drain's last
  ThreadFrame call. EmuCoreThread.StopCompletes and
  EmuCoreRuns.SessionClosing place it after every drain call; that order is
  the model's, not the source's.
- EmuCoreThread.Start: on the path that terminates, the source builds the
  temporary `std::thread(&EmuThreadFunc)`, whose thread starts, before the
  move-assignment calls `std::terminate` (NativeApp.cpp:164). The model
  logs no spawn for it, because the process ends there.
- Liveness of the drain loops (NativeApp.cpp:175-178, 190-195). They have no
  bound, so the oracles bound them: a wait not finished within the oracle
  supplied ends `Hung`.
- EmuCoreThread.JoinThread: a join on a worker that keeps looping ends
  `Hung`, because in a sequential model nobody else writes the state. The
  real join blocks forever.
- `usleep` (NativeApp.cpp:147, 194) is left out: time is not modelled.
- The body of EmuFrame (NativeApp.cpp:111-129) is one `EmuFrame` event. Its
  calls into the render target, the draw context, the GPU and the emulator
  are foreign code.
- The graphics context's ThreadStart, ThreadFrame, StopThread and
  ThreadEnd are recorded events. Their bodies forward to a render manager
  that is not part of this model. SwapBuffers has an empty body
  (Common/GPU/OpenGL/OpenEmuGLContext.h:32, gfx/OpenEmuGLContext.h:35); the
  model logs only the call NativeRender makes to it.
- `gfx/OpenEmuGLContext.cpp`, both `OpenEmuGLContext.h` headers and the GL
  header files are left out. They hold calls into unseen library code and
  macro aliases.
- NativeInit, NativeInitGraphics, CreateGlobalPipelines, NativeFrame,
  NativeShutdown and NativeMix are left out. They do only VFS, logging,
  shader, audio and achievement setup through foreign calls.
- `System_GetPropertyFloat` is left out because it works on floating point.
- `System_GetPropertyStringVec` and the empty `System_*` stubs are left out.
- The `setlocale` and `std::locale` calls are left out. The locale string
  they read is a parameter of `GetProperty`.
- NativeSystem.SystemProperty names only the properties these functions
  answer, plus `Other` for all the rest.
- NativeSystem.LocaleToLangRegion: the source's separate empty-locale test
  is kept in the body. A locale without '_' covers it in the contract.
- NativeSystem.RemovePath works on strings, not on C pointers. Returning
  `slash + 1` is returning the suffix.
