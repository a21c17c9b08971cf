/**
 * The emulation-thread coordinator of NativeApp.cpp (namespace
 * OpenEmuCoreThread), as values: one record of the coordinator's variables
 * and one function per operation that gives the record afterwards.
 *
 * The host thread's calls (EmuThreadStart, EmuThreadStop, EmuThreadPause,
 * NativeSetThreadState, NativeRender), the static EmuThreadJoin (which
 * nothing calls) and one iteration of the worker's `while (true) switch`
 * loop are each a function here. The calls the
 * coordinator makes into code it does not see (the graphics context's thread
 * hooks, one emulated frame, creating and joining the std::thread) are
 * recorded in order in an event log. The drain primitive `ctx->ThreadFrame()`
 * is an oracle: the caller supplies the results it returns, or the points at
 * which the worker gets to run while the host sleeps.
 */
module EmuCoreThread {

  /** The seven values of `emuThreadState`. */
  datatype EmuThreadState =
    | Disabled
    | StartRequested
    | Running
    | PauseRequested
    | Paused
    | QuitRequested
    | Stopped

  /** A call out of the coordinator into code it does not see. */
  datatype Event =
    | EmuFrame     // one emulated frame (the body of EmuFrame)
    | ThreadStart  // ctx->ThreadStart()
    | ThreadFrame  // ctx->ThreadFrame(), the render-thread rendezvous
    | SwapBuffers  // ctx->SwapBuffers()
    | StopThread   // ctx->StopThread(), made by the exiting worker
    | ThreadEnd    // ctx->ThreadEnd()
    | Spawn        // emuThread = std::thread(&EmuThreadFunc)
    | Join         // emuThread.join(); emuThread = std::thread()

  /** How a host call ends. */
  datatype Outcome =
    | Done        // the call returned normally
    | Ignored     // its guard did not hold and it changed nothing
    | Hung        // a wait did not finish within the oracle supplied
    | Terminated  // a std::thread was assigned over a joinable one: std::terminate
    | JoinFailed  // join on a handle with no thread: std::system_error
  {
    /** The host thread does not go on to its next call. */
    predicate Halts() {
      Hung? || Terminated? || JoinFailed?
    }
  }

  /**
   * The coordinator's variables: `emuThreadState`, `threadStarted`, whether
   * `emuThread` holds a joinable thread (`threadLive`), whether that thread is
   * still inside EmuThreadFunc's loop (`workerActive`), and the calls made.
   */
  datatype Coord = Coord(
    state: EmuThreadState,
    threadStarted: bool,
    threadLive: bool,
    workerActive: bool,
    log: seq<Event>)

  /** The variables after a host call, and how the call ended. */
  datatype Step = Step(next: Coord, outcome: Outcome)

  /** The static initialisers of NativeApp.cpp: no thread, state DISABLED. */
  const Initial := Coord(Disabled, false, false, false, [])

  /** How often `e` occurs in `log`. */
  function Count(log: seq<Event>, e: Event): (n: nat)
    ensures n <= |log|
    ensures e !in log ==> n == 0
  {
    if log == [] then 0 else (if log[0] == e then 1 else 0) + Count(log[1..], e)
  }

  lemma {:induction false} CountAppend(a: seq<Event>, b: seq<Event>, e: Event)
    ensures Count(a + b, e) == Count(a, e) + Count(b, e)
  {
    if a == [] {
      assert a + b == b;
    } else {
      assert (a + b)[1..] == a[1..] + b;
      CountAppend(a[1..], b, e);
    }
  }

  lemma CountSnoc(a: seq<Event>, x: Event, e: Event)
    ensures Count(a + [x], e) == Count(a, e) + (if x == e then 1 else 0)
  {
    CountAppend(a, [x], e);
    assert [x][1..] == [];
  }

  /** `n` calls of `ctx->ThreadFrame()` in a row. */
  function Ticks(n: nat): (t: seq<Event>)
    ensures |t| == n
    ensures forall i :: 0 <= i < n ==> t[i] == ThreadFrame
  {
    if n == 0 then [] else [ThreadFrame] + Ticks(n - 1)
  }

  lemma TicksSnoc(n: nat)
    ensures Ticks(n) + [ThreadFrame] == Ticks(n + 1)
  {
    assert forall i :: 0 <= i < n + 1 ==> (Ticks(n) + [ThreadFrame])[i] == Ticks(n + 1)[i];
  }

  lemma {:induction false} CountTicks(n: nat, e: Event)
    ensures Count(Ticks(n), e) == if e == ThreadFrame then n else 0
  {
    if n > 0 {
      assert Ticks(n)[1..] == Ticks(n - 1);
      CountTicks(n - 1, e);
    }
  }

  /**
   * How many elements of `s` a loop consumes that stops just after the first
   * element equal to `stop`: that element's position plus one, or all of `s`
   * when it holds none.
   */
  function TicksUntil(s: seq<bool>, stop: bool): (n: nat)
    ensures n <= |s|
    ensures forall i :: 0 <= i < n - 1 ==> s[i] != stop
    ensures stop in s ==> 0 < n && s[n - 1] == stop
    ensures stop !in s ==> n == |s|
  {
    if s == [] then 0
    else if s[0] == stop then 1
    else 1 + TicksUntil(s[1..], stop)
  }

  /** The states in which the worker goes round its loop again instead of returning. */
  predicate KeepsLooping(s: EmuThreadState) {
    s == StartRequested || s == Running || s == PauseRequested || s == Paused
  }

  /**
   * One iteration of EmuThreadFunc's `switch`. START_REQUESTED sets
   * `threadStarted`, becomes RUNNING and falls through to run a frame;
   * RUNNING runs a frame; PAUSE_REQUESTED becomes PAUSED and falls through to
   * the idle sleep; PAUSED sleeps; QUIT_REQUESTED and every other state
   * becomes STOPPED, calls `ctx->StopThread()` and leaves the loop.
   */
  function Worker(c: Coord): (r: Coord)
    requires c.workerActive
  {
    match c.state
    case StartRequested => c.(state := Running, threadStarted := true, log := c.log + [EmuFrame])
    case Running => c.(log := c.log + [EmuFrame])
    case PauseRequested => c.(state := Paused)
    case Paused => c
    case _ => c.(state := Stopped, workerActive := false, log := c.log + [StopThread])
  }

  /**
   * EmuThreadStart: the state becomes START_REQUESTED; unless it was PAUSED,
   * `ctx->ThreadStart()` is called and a new worker thread is assigned to
   * `emuThread`, which terminates the process if that handle still holds a
   * joinable thread.
   */
  function Start(c: Coord): (r: Step)
  {
    var wasPaused := c.state == Paused;
    var requested := c.(state := StartRequested);
    if wasPaused then Step(requested, Done)
    else if c.threadLive then Step(requested.(log := requested.log + [ThreadStart]), Terminated)
    else Step(requested.(threadLive := true, workerActive := true,
                         log := requested.log + [ThreadStart, Spawn]), Done)
  }

  /**
   * `emuThread.join(); emuThread = std::thread();`, the body of EmuThreadJoin
   * and the end of EmuThreadStop. Joining an empty handle
   * fails; a worker that is still looping in a state nobody else changes is
   * never joined; otherwise the worker takes its last step, if it has not
   * returned already, and the handle is emptied.
   */
  function JoinThread(c: Coord): (r: Step)
  {
    if !c.threadLive then Step(c, JoinFailed)
    else if c.workerActive && KeepsLooping(c.state) then Step(c, Hung)
    else
      var exited := if c.workerActive then Worker(c) else c;
      Step(exited.(threadLive := false, log := exited.log + [Join]), Done)
  }

  /**
   * EmuThreadStop, where `results` are the values successive
   * `ctx->ThreadFrame()` calls return. Unless the state is RUNNING it does
   * nothing. Otherwise it requests QUIT, calls ThreadFrame until one returns
   * false, joins the worker and calls `ctx->ThreadEnd()`.
   */
  function Stop(c: Coord, results: seq<bool>): (r: Step)
  {
    if c.state != Running then Step(c, Ignored)
    else
      var drained := c.(state := QuitRequested, log := c.log + Ticks(TicksUntil(results, false)));
      if false !in results then Step(drained, Hung)
      else StopFinish(drained)
  }

  /** The end of EmuThreadStop once its drain is over: the join, then `ctx->ThreadEnd()`. */
  function StopFinish(drained: Coord): (r: Step)
  {
    var joined := JoinThread(drained);
    if joined.outcome != Done then joined
    else Step(joined.next.(log := joined.next.log + [ThreadEnd]), Done)
  }

  /**
   * EmuThreadPause's wait loop from its first test of `emuThreadState !=
   * PAUSED`: each round calls `ctx->ThreadFrame()`, writes PAUSE_REQUESTED
   * again and sleeps; `schedule[i]` says whether the worker takes a step
   * during the i-th sleep. Rounds beyond `schedule` are not modelled.
   */
  function PauseDrain(c: Coord, schedule: seq<bool>): (r: Step)
    decreases |schedule|
  {
    if c.state == Paused then Step(c, Done)
    else if schedule == [] then Step(c, Hung)
    else
      PauseDrain(PauseRound(c, schedule[0]), schedule[1..])
  }

  /**
   * One round of EmuThreadPause's wait loop: `ctx->ThreadFrame()`, PAUSE_REQUESTED
   * written again, then a sleep during which the worker takes one step when
   * `workerSteps` holds. The worker, finding PAUSE_REQUESTED, only moves to
   * PAUSED; nothing else changes but the one ThreadFrame call.
   */
  function PauseRound(c: Coord, workerSteps: bool): (r: Coord)
    ensures r == c.(state := if workerSteps && c.workerActive then Paused else PauseRequested,
                    log := c.log + [ThreadFrame])
  {
    var ticked := c.(state := PauseRequested, log := c.log + [ThreadFrame]);
    if workerSteps && ticked.workerActive then Worker(ticked) else ticked
  }

  /** EmuThreadPause: nothing unless RUNNING; then PAUSE_REQUESTED and the wait loop. */
  function Pause(c: Coord, schedule: seq<bool>): (r: Step)
  {
    if c.state != Running then Step(c, Ignored)
    else PauseDrain(c.(state := PauseRequested), schedule)
  }

  /**
   * NativeSetThreadState: a pause request goes to EmuThreadPause once the
   * worker has started, a start request to EmuThreadStart before it has,
   * and any other request is stored into the state as it is.
   */
  function SetThreadState(c: Coord, request: EmuThreadState, schedule: seq<bool>): (r: Step)
  {
    if request == PauseRequested && c.threadStarted then Pause(c, schedule)
    else if request == StartRequested && !c.threadStarted then Start(c)
    else Step(c.(state := request), Done)
  }

  /** NativeRender: nothing while PAUSED, else one ThreadFrame and one SwapBuffers. */
  function Render(c: Coord): (r: Coord)
  {
    if c.state == Paused then c else c.(log := c.log + [ThreadFrame, SwapBuffers])
  }

  // ---------------------------------------------------------------------
  // What each operation does, stated for every input.
  // ---------------------------------------------------------------------

  /**
   * One worker iteration: START_REQUESTED and RUNNING end RUNNING with exactly
   * one more frame; PAUSE_REQUESTED and PAUSED end PAUSED with no frame and
   * no call; every other state ends STOPPED with one more StopThread, no
   * frame, and the worker gone. Only `threadStarted` may be set, and only
   * from START_REQUESTED; the thread handle is untouched.
   */
  lemma WorkerEffect(c: Coord)
    requires c.workerActive
    ensures var r := Worker(c);
      && c.log <= r.log
      && r.threadLive == c.threadLive
      && r.threadStarted == (c.threadStarted || c.state == StartRequested)
      && (c.state == StartRequested || c.state == Running ==>
            && r.state == Running && r.workerActive
            && Count(r.log, EmuFrame) == Count(c.log, EmuFrame) + 1
            && Count(r.log, ThreadFrame) == Count(c.log, ThreadFrame)
            && Count(r.log, StopThread) == Count(c.log, StopThread))
      && (c.state == PauseRequested || c.state == Paused ==>
            r.state == Paused && r.workerActive && r.log == c.log)
      && (!KeepsLooping(c.state) ==>
            && r.state == Stopped && !r.workerActive
            && Count(r.log, StopThread) == Count(c.log, StopThread) + 1
            && Count(r.log, EmuFrame) == Count(c.log, EmuFrame))
  {
    match c.state
    case StartRequested | Running =>
      CountSnoc(c.log, EmuFrame, EmuFrame);
      CountSnoc(c.log, EmuFrame, ThreadFrame);
      CountSnoc(c.log, EmuFrame, StopThread);
    case PauseRequested | Paused =>
    case _ =>
      CountSnoc(c.log, StopThread, StopThread);
      CountSnoc(c.log, StopThread, EmuFrame);
  }

  /**
   * EmuThreadStart always leaves START_REQUESTED. It calls ThreadStart, and
   * tries to spawn, exactly when the state was not PAUSED; the spawn
   * terminates the process exactly when a joinable thread is still held.
   * Resuming from PAUSED makes no call at all. `threadStarted` is not touched.
   */
  lemma StartEffect(c: Coord)
    ensures var r := Start(c);
      && r.next.state == StartRequested
      && r.next.threadStarted == c.threadStarted
      && (r.outcome == Terminated <==> c.state != Paused && c.threadLive)
      && (r.outcome != Terminated ==> r.outcome == Done)
      && Count(r.next.log, ThreadStart) == Count(c.log, ThreadStart) + (if c.state != Paused then 1 else 0)
      && Count(r.next.log, Spawn) == Count(c.log, Spawn) + (if c.state != Paused && !c.threadLive then 1 else 0)
      && (c.state == Paused ==> r.next == c.(state := StartRequested))
      && (r.outcome == Done && c.state != Paused ==> r.next.threadLive && r.next.workerActive)
  {
    CountAppend(c.log, [ThreadStart], ThreadStart);
    CountAppend(c.log, [ThreadStart], Spawn);
    CountAppend(c.log, [ThreadStart, Spawn], ThreadStart);
    CountAppend(c.log, [ThreadStart, Spawn], Spawn);
  }

  /**
   * EmuThreadStop and EmuThreadPause change nothing at all unless the state
   * is RUNNING: no state write, no ThreadFrame, no join.
   */
  lemma StopPauseGuard(c: Coord, results: seq<bool>, schedule: seq<bool>)
    requires c.state != Running
    ensures Stop(c, results) == Step(c, Ignored)
    ensures Pause(c, schedule) == Step(c, Ignored)
  {
  }

  /**
   * EmuThreadStop from RUNNING when no ThreadFrame call supplied returns
   * false: the drain is still running, with QUIT_REQUESTED stored.
   */
  lemma StopHangs(c: Coord, results: seq<bool>)
    requires c.state == Running && false !in results
    ensures Stop(c, results) == Step(c.(state := QuitRequested, log := c.log + Ticks(|results|)), Hung)
  {
  }

  /**
   * EmuThreadStop from RUNNING when the drain ends but `emuThread` holds no
   * thread: the join fails after QUIT_REQUESTED and the drain ticks.
   */
  lemma StopJoinFails(c: Coord, results: seq<bool>)
    requires c.state == Running && false in results && !c.threadLive
    ensures Stop(c, results) ==
              Step(c.(state := QuitRequested, log := c.log + Ticks(TicksUntil(results, false))), JoinFailed)
  {
  }

  /**
   * EmuThreadStop from RUNNING: the ThreadFrame drain runs until a call
   * returns false; the worker, if still looping, sees QUIT_REQUESTED, stores
   * STOPPED and calls StopThread once; the handle is joined and emptied; and
   * ThreadEnd is the last call. No frame is run.
   */
  lemma StopCompletes(c: Coord, results: seq<bool>)
    requires c.state == Running && false in results && c.threadLive
    ensures var r := Stop(c, results);
      && r.outcome == Done
      && r.next.state == (if c.workerActive then Stopped else QuitRequested)
      && !r.next.threadLive && !r.next.workerActive
      && r.next.threadStarted == c.threadStarted
      && r.next.log == c.log + Ticks(TicksUntil(results, false))
                       + (if c.workerActive then [StopThread] else []) + [Join, ThreadEnd]
      && Count(r.next.log, EmuFrame) == Count(c.log, EmuFrame)
      && Count(r.next.log, ThreadEnd) == Count(c.log, ThreadEnd) + 1
  {
    var n := TicksUntil(results, false);
    var drained := c.(state := QuitRequested, log := c.log + Ticks(n));
    var tail := (if c.workerActive then [StopThread] else []) + [Join, ThreadEnd];
    var r := Stop(c, results);
    var joined := JoinThread(drained);
    assert r == Step(joined.next.(log := joined.next.log + [ThreadEnd]), Done);
    if c.workerActive {
      var exited := Worker(drained);
      assert exited == drained.(state := Stopped, workerActive := false, log := drained.log + [StopThread]);
      assert joined.next == exited.(threadLive := false, log := exited.log + [Join]);
    } else {
      assert joined.next == drained.(threadLive := false, log := drained.log + [Join]);
    }
    assert r.next.log == drained.log + tail;
    ghost var pre: seq<Event> := if c.workerActive then [StopThread] else [];
    assert drained.log + tail == c.log + Ticks(n) + pre + [Join, ThreadEnd];
    CountAppend(c.log, Ticks(n), EmuFrame);
    CountAppend(c.log, Ticks(n), ThreadEnd);
    CountAppend(drained.log, tail, EmuFrame);
    CountAppend(drained.log, tail, ThreadEnd);
    CountTicks(n, EmuFrame);
    CountTicks(n, ThreadEnd);
    TailCounts(c.workerActive);
  }

  lemma TailCounts(exitedHere: bool)
    ensures var tail := (if exitedHere then [StopThread] else []) + [Join, ThreadEnd];
      Count(tail, EmuFrame) == 0 && Count(tail, ThreadEnd) == 1
  {
    var pre: seq<Event> := if exitedHere then [StopThread] else [];
    assert pre + [Join, ThreadEnd] == pre + [Join] + [ThreadEnd];
    forall e | e == EmuFrame || e == ThreadEnd
      ensures Count(pre + [Join, ThreadEnd], e) == (if e == ThreadEnd then 1 else 0)
    {
      CountSnoc(pre + [Join], ThreadEnd, e);
      CountSnoc(pre, Join, e);
      assert pre == [] || pre == [] + [StopThread];
      CountSnoc([], StopThread, e);
    }
  }

  /**
   * The pause wait loop, entered with PAUSE_REQUESTED: it ends with PAUSED
   * exactly when the worker is looping and the schedule lets it run; it then
   * made one ThreadFrame call per round up to and including the round whose
   * sleep the worker ran in, and otherwise one per round supplied and hangs
   * with PAUSE_REQUESTED. It runs no frame and leaves every other variable
   * as it was.
   */
  lemma {:induction false} PauseDrainEffect(c: Coord, schedule: seq<bool>)
    requires c.state == PauseRequested
    ensures var r := PauseDrain(c, schedule);
      && (r.outcome == Done <==> c.workerActive && true in schedule)
      && (r.outcome != Done ==> r.outcome == Hung)
      && r.next.state == (if r.outcome == Done then Paused else PauseRequested)
      && r.next.log == c.log + Ticks(if c.workerActive then TicksUntil(schedule, true) else |schedule|)
      && r.next.(state := c.state, log := c.log) == c
    decreases |schedule|
  {
    if schedule != [] {
      var ticked := c.(state := PauseRequested, log := c.log + [ThreadFrame]);
      if schedule[0] && ticked.workerActive {
        assert Ticks(1) == [ThreadFrame];
      } else {
        PauseDrainEffect(ticked, schedule[1..]);
        assert schedule == [schedule[0]] + schedule[1..];
        var m := if c.workerActive then TicksUntil(schedule[1..], true) else |schedule[1..]|;
        assert [ThreadFrame] + Ticks(m) == Ticks(m + 1);
        assert c.log + [ThreadFrame] + Ticks(m) == c.log + Ticks(m + 1);
      }
    }
  }

  /**
   * EmuThreadPause from RUNNING: it ends PAUSED exactly when the worker runs
   * during one of its sleeps, calls ThreadFrame at least once, and never
   * advances emulation.
   */
  lemma PauseEffect(c: Coord, schedule: seq<bool>)
    requires c.state == Running
    ensures var r := Pause(c, schedule);
      && (r.outcome == Done <==> c.workerActive && true in schedule)
      && (r.outcome == Done ==> r.next.state == Paused && Count(r.next.log, ThreadFrame) > Count(c.log, ThreadFrame))
      && (r.outcome != Done ==> r.outcome == Hung && r.next.state == PauseRequested)
      && Count(r.next.log, EmuFrame) == Count(c.log, EmuFrame)
      && r.next.threadStarted == c.threadStarted
      && r.next.threadLive == c.threadLive && r.next.workerActive == c.workerActive
  {
    var requested := c.(state := PauseRequested);
    PauseDrainEffect(requested, schedule);
    var n := if c.workerActive then TicksUntil(schedule, true) else |schedule|;
    CountAppend(c.log, Ticks(n), EmuFrame);
    CountAppend(c.log, Ticks(n), ThreadFrame);
    CountTicks(n, EmuFrame);
    CountTicks(n, ThreadFrame);
  }

  /**
   * NativeSetThreadState's routing. Because `threadStarted` is never
   * cleared, once the worker has started a START_REQUESTED request is only
   * stored, which is how a paused worker is resumed in place; before the
   * worker's first iteration a PAUSE_REQUESTED request is only stored, and
   * a looping worker then moves it to PAUSED without setting `threadStarted`.
   */
  lemma SetThreadStateRouting(c: Coord, request: EmuThreadState, schedule: seq<bool>)
    ensures request == PauseRequested && c.threadStarted ==>
              SetThreadState(c, request, schedule) == Pause(c, schedule)
    ensures request == StartRequested && !c.threadStarted ==>
              SetThreadState(c, request, schedule) == Start(c)
    ensures !(request == PauseRequested && c.threadStarted) && !(request == StartRequested && !c.threadStarted) ==>
              SetThreadState(c, request, schedule) == Step(c.(state := request), Done)
    ensures c.threadStarted ==> SetThreadState(c, StartRequested, schedule) == Step(c.(state := StartRequested), Done)
    ensures !c.threadStarted ==> SetThreadState(c, PauseRequested, schedule) == Step(c.(state := PauseRequested), Done)
  {
  }

  /**
   * NativeRender never writes the state: while PAUSED it makes no call,
   * otherwise exactly one ThreadFrame followed by one SwapBuffers.
   */
  lemma RenderEffect(c: Coord)
    ensures Render(c).(log := c.log) == c
    ensures c.state == Paused ==> Render(c) == c
    ensures c.state != Paused ==> Render(c).log == c.log + [ThreadFrame, SwapBuffers]
    ensures Count(Render(c).log, EmuFrame) == Count(c.log, EmuFrame)
  {
    CountAppend(c.log, [ThreadFrame, SwapBuffers], EmuFrame);
  }
}
