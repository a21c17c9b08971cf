/**
 * The emulation-thread coordinator of NativeApp.cpp as the source has it:
 * module-level variables that the host-side entry points and the worker
 * overwrite in place, gathered here into one object. Each method is proved
 * to have exactly the effect the matching function of EmuCoreThread gives,
 * so what is proved there about the functions holds of these methods.
 */
module EmuCoreCoordinator {
  import opened EmuCoreThread
  import EmuCoreRuns

  class Coordinator {
    /** `emuThreadState` */
    var state: EmuThreadState
    /** `threadStarted`: set by the worker, never cleared */
    var threadStarted: bool
    /** `emuThread` holds a joinable thread */
    var threadLive: bool
    /** that thread is still inside EmuThreadFunc's loop */
    var workerActive: bool
    /** the calls made so far into the graphics context, the emulator and std::thread */
    var log: seq<Event>

    function Snapshot(): Coord
      reads this
    {
      Coord(state, threadStarted, threadLive, workerActive, log)
    }

    /** At most one emulation thread; each one joined and stopped once. */
    ghost predicate Valid()
      reads this
    {
      EmuCoreRuns.Inv(Snapshot())
    }

    /** The static initialisers: DISABLED, not started, no thread. */
    constructor ()
      ensures Valid()
      ensures Snapshot() == Initial
    {
      state := Disabled;
      threadStarted := false;
      threadLive := false;
      workerActive := false;
      log := [];
    }

    /** One iteration of EmuThreadFunc's `while (true) switch`, run by the worker thread. */
    method WorkerStep()
      requires Valid() && workerActive
      modifies this
      ensures Valid()
      ensures Snapshot() == Worker(old(Snapshot()))
    {
      ghost var next := Worker(Snapshot());
      EmuCoreRuns.WorkerKeepsInv(Snapshot());
      match state
      case StartRequested =>
        threadStarted := true;
        state := Running;
        log := log + [EmuFrame];  // falls through to RUNNING: EmuFrame()
      case Running =>
        log := log + [EmuFrame];
      case PauseRequested =>
        state := Paused;          // falls through to PAUSED: usleep(1000)
      case Paused =>
      case _ =>
        state := Stopped;
        log := log + [StopThread];
        workerActive := false;    // return
      assert Snapshot() == next;
    }

    /** EmuThreadStart. */
    method EmuThreadStart() returns (outcome: Outcome)
      requires Valid()
      modifies this
      ensures Valid()
      ensures Step(Snapshot(), outcome) == Start(old(Snapshot()))
      ensures state == StartRequested && threadStarted == old(threadStarted)
    {
      ghost var before := Snapshot();
      EmuCoreRuns.StartKeepsInv(before);
      var wasPaused := state == Paused;
      state := StartRequested;
      if !wasPaused {
        log := log + [ThreadStart];
        if threadLive {
          // the new std::thread is move-assigned onto a joinable one
          assert Step(Snapshot(), Terminated) == Start(before);
          return Terminated;
        }
        threadLive, workerActive := true, true;
        assert log + [Spawn] == before.log + [ThreadStart, Spawn];
        log := log + [Spawn];
      }
      outcome := Done;
      assert Step(Snapshot(), outcome) == Start(before);
    }

    /**
     * `emuThread.join(); emuThread = std::thread();` (the static EmuThreadJoin,
     * which nothing in the program calls; FinishStop makes the same join).
     */
    method EmuThreadJoin() returns (outcome: Outcome)
      requires Valid()
      modifies this
      ensures Valid()
      ensures Step(Snapshot(), outcome) == JoinThread(old(Snapshot()))
      ensures outcome == Done ==> !threadLive && !workerActive
    {
      EmuCoreRuns.JoinKeepsInv(Snapshot());
      if !threadLive {
        return JoinFailed;
      }
      if workerActive {
        if KeepsLooping(state) {
          // nothing else changes the state, so the worker never returns
          return Hung;
        }
        WorkerStep();
      }
      log := log + [Join];
      threadLive := false;
      outcome := Done;
    }

    /**
     * `while (ctx->ThreadFrame()) continue;` in EmuThreadStop, where
     * `results` are the values successive calls return: it makes
     * TicksUntil(results, false) calls and finishes exactly when one of the
     * results supplied is false.
     */
    method DrainFrames(results: seq<bool>) returns (finished: bool)
      modifies this
      ensures finished == (false in results)
      ensures Snapshot() == old(Snapshot()).(log := old(log) + Ticks(TicksUntil(results, false)))
    {
      var i := 0;
      var more := true;
      while more
        invariant 0 <= i <= |results|
        invariant Snapshot() == old(Snapshot()).(log := old(log) + Ticks(i))
        invariant more <==> forall j :: 0 <= j < i ==> results[j]
        invariant !more ==> 0 < i && !results[i - 1] && forall j :: 0 <= j < i - 1 ==> results[j]
        decreases |results| - i
      {
        if i == |results| {
          return false;
        }
        log := log + [ThreadFrame];
        TicksSnoc(i);
        more := results[i];
        i := i + 1;
      }
      finished := true;
    }

    /** The end of EmuThreadStop: `emuThread.join(); emuThread = std::thread(); ctx->ThreadEnd();` */
    method FinishStop() returns (outcome: Outcome)
      requires Valid()
      modifies this
      ensures Valid()
      ensures Step(Snapshot(), outcome) == StopFinish(old(Snapshot()))
    {
      outcome := EmuThreadJoin();
      if outcome != Done {
        return;
      }
      EmuCoreRuns.ExtendQuiet(Snapshot(), [ThreadEnd]);
      log := log + [ThreadEnd];
    }

    /**
     * EmuThreadStop; `results` are the values successive `ctx->ThreadFrame()`
     * calls return.
     */
    method EmuThreadStop(results: seq<bool>) returns (outcome: Outcome)
      requires Valid()
      modifies this
      ensures Valid()
      ensures Step(Snapshot(), outcome) == Stop(old(Snapshot()), results)
    {
      if state != Running {
        return Ignored;
      }
      EmuCoreRuns.StopDrainKeepsInv(Snapshot(), results);
      state := QuitRequested;
      var finished := DrainFrames(results);
      if !finished {
        return Hung;
      }
      outcome := FinishStop();
    }

    /**
     * The body of EmuThreadPause's wait loop; `workerSteps` says whether the
     * worker takes a step during the `usleep(10000)`.
     */
    method PauseWaitRound(workerSteps: bool)
      requires Valid()
      modifies this
      ensures Valid()
      ensures Snapshot() == PauseRound(old(Snapshot()), workerSteps)
    {
      EmuCoreRuns.ExtendQuiet(Snapshot(), [ThreadFrame]);
      log := log + [ThreadFrame];        // ctx->ThreadFrame()
      state := PauseRequested;
      if workerSteps && workerActive {   // usleep(10000)
        WorkerStep();
      }
    }

    /**
     * EmuThreadPause; `schedule[i]` says whether the worker takes a step
     * during the i-th `usleep(10000)` of the wait loop.
     */
    method EmuThreadPause(schedule: seq<bool>) returns (outcome: Outcome)
      requires Valid()
      modifies this
      ensures Valid()
      ensures Step(Snapshot(), outcome) == Pause(old(Snapshot()), schedule)
    {
      ghost var before := Snapshot();
      EmuCoreRuns.PauseKeepsInv(before, schedule);
      if state != Running {
        return Ignored;
      }
      state := PauseRequested;
      var i := 0;
      while state != Paused
        invariant 0 <= i <= |schedule|
        invariant Valid()
        invariant PauseDrain(Snapshot(), schedule[i..]) == Pause(before, schedule)
        decreases |schedule| - i
      {
        if i == |schedule| {
          return Hung;
        }
        assert schedule[i..][0] == schedule[i] && schedule[i..][1..] == schedule[i + 1..];
        PauseWaitRound(schedule[i]);
        i := i + 1;
      }
      outcome := Done;
    }

    /** NativeSetThreadState; `schedule` is passed on to EmuThreadPause. */
    method NativeSetThreadState(request: EmuThreadState, schedule: seq<bool>) returns (outcome: Outcome)
      requires Valid()
      modifies this
      ensures Valid()
      ensures Step(Snapshot(), outcome) == SetThreadState(old(Snapshot()), request, schedule)
    {
      if request == PauseRequested && threadStarted {
        outcome := EmuThreadPause(schedule);
      } else if request == StartRequested && !threadStarted {
        outcome := EmuThreadStart();
      } else {
        state := request;
        outcome := Done;
      }
    }

    /** NativeRender. */
    method NativeRender()
      requires Valid()
      modifies this
      ensures Valid()
      ensures Snapshot() == Render(old(Snapshot()))
      ensures state == old(state)
    {
      if state == Paused {
        return;
      }
      EmuCoreRuns.ExtendQuiet(Snapshot(), [ThreadFrame, SwapBuffers]);
      log := log + [ThreadFrame, SwapBuffers];  // ctx->ThreadFrame(); ctx->SwapBuffers()
    }
  }
}
