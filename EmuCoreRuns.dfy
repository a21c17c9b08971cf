/**
 * Sequences of host calls and worker iterations on the coordinator of
 * NativeApp.cpp, run one after another. The real program runs the worker on
 * its own thread; here its iterations are interleaved explicitly, as
 * `WorkerTick` entries between the host's calls and as the oracles of the
 * drain loops.
 */
module EmuCoreRuns {
  import opened EmuCoreThread

  /** One entry point of the coordinator, or one iteration of the worker. */
  datatype Op =
    | WorkerTick                                                // one EmuThreadFunc iteration
    | RenderTick                                                // NativeRender
    | StartCall                                                 // EmuThreadStart
    | StopCall(results: seq<bool>)                              // EmuThreadStop
    | PauseCall(schedule: seq<bool>)                            // EmuThreadPause
    | SetStateCall(request: EmuThreadState, schedule: seq<bool>) // NativeSetThreadState
    | JoinCall                                                  // EmuThreadJoin, which nothing in the program calls

  /** The effect of one entry; a worker iteration needs a worker that is still looping. */
  function Apply(c: Coord, op: Op): (r: Step)
  {
    match op
    case WorkerTick => if c.workerActive then Step(Worker(c), Done) else Step(c, Ignored)
    case RenderTick => Step(Render(c), Done)
    case StartCall => Start(c)
    case StopCall(results) => Stop(c, results)
    case PauseCall(schedule) => Pause(c, schedule)
    case SetStateCall(request, schedule) => SetThreadState(c, request, schedule)
    case JoinCall => JoinThread(c)
  }

  /** The entries in order, up to the first one the host thread does not return from. */
  function Run(c: Coord, ops: seq<Op>): (r: Step)
    decreases |ops|
  {
    if ops == [] then Step(c, Done)
    else
      var s := Apply(c, ops[0]);
      if s.outcome.Halts() then s else Run(s.next, ops[1..])
  }

  lemma {:induction false} RunAppend(c: Coord, a: seq<Op>, b: seq<Op>)
    ensures Run(c, a + b) ==
              if Run(c, a).outcome.Halts() then Run(c, a) else Run(Run(c, a).next, b)
    decreases |a|
  {
    if a == [] {
      assert a + b == b;
    } else {
      assert (a + b)[0] == a[0];
      assert (a + b)[1..] == a[1..] + b;
      var s := Apply(c, a[0]);
      if !s.outcome.Halts() {
        RunAppend(s.next, a[1..], b);
      }
    }
  }

  // ---------------------------------------------------------------------
  // Thread accounting: at most one thread, each joined and stopped once.
  // ---------------------------------------------------------------------

  /**
   * A worker that is still looping is held by `emuThread`; every thread
   * spawned is either still held or was joined once; and every thread
   * spawned is either still looping or called StopThread once on its way
   * out. So there is never more than one emulation thread.
   */
  predicate Inv(c: Coord)
  {
    && (c.workerActive ==> c.threadLive)
    && Count(c.log, Spawn) == Count(c.log, Join) + (if c.threadLive then 1 else 0)
    && Count(c.log, Spawn) == Count(c.log, StopThread) + (if c.workerActive then 1 else 0)
  }

  /** Calls that neither create, join nor stop a thread. */
  predicate Quiet(t: seq<Event>)
  {
    Spawn !in t && Join !in t && StopThread !in t
  }

  lemma ExtendQuiet(c: Coord, t: seq<Event>)
    requires Inv(c) && Quiet(t)
    ensures Inv(c.(log := c.log + t))
  {
    CountAppend(c.log, t, Spawn);
    CountAppend(c.log, t, Join);
    CountAppend(c.log, t, StopThread);
  }

  lemma WorkerKeepsInv(c: Coord)
    requires Inv(c) && c.workerActive
    ensures Inv(Worker(c))
  {
    match c.state
    case StartRequested | Running =>
      ExtendQuiet(c, [EmuFrame]);
      assert Worker(c) == c.(log := c.log + [EmuFrame]).(state := Running, threadStarted := c.threadStarted || c.state == StartRequested);
    case PauseRequested | Paused =>
    case _ =>
      CountSnoc(c.log, StopThread, Spawn);
      CountSnoc(c.log, StopThread, Join);
      CountSnoc(c.log, StopThread, StopThread);
  }

  lemma JoinKeepsInv(c: Coord)
    requires Inv(c)
    ensures Inv(JoinThread(c).next)
  {
    if c.threadLive && !(c.workerActive && KeepsLooping(c.state)) {
      var exited := if c.workerActive then Worker(c) else c;
      if c.workerActive {
        WorkerKeepsInv(c);
      }
      CountSnoc(exited.log, Join, Spawn);
      CountSnoc(exited.log, Join, Join);
      CountSnoc(exited.log, Join, StopThread);
    }
  }

  lemma StartKeepsInv(c: Coord)
    requires Inv(c)
    ensures Inv(Start(c).next)
  {
    if c.state != Paused {
      if c.threadLive {
        ExtendQuiet(c.(state := StartRequested), [ThreadStart]);
      } else {
        CountAppend(c.log, [ThreadStart, Spawn], Spawn);
        CountAppend(c.log, [ThreadStart, Spawn], Join);
        CountAppend(c.log, [ThreadStart, Spawn], StopThread);
        assert [ThreadStart, Spawn] == [ThreadStart] + [Spawn];
        CountSnoc([ThreadStart], Spawn, Spawn);
        CountSnoc([ThreadStart], Spawn, Join);
        CountSnoc([ThreadStart], Spawn, StopThread);
      }
    }
  }

  lemma StopKeepsInv(c: Coord, results: seq<bool>)
    requires Inv(c)
    ensures Inv(Stop(c, results).next)
  {
    if c.state == Running {
      var n := TicksUntil(results, false);
      var drained := c.(state := QuitRequested, log := c.log + Ticks(n));
      ExtendQuiet(c.(state := QuitRequested), Ticks(n));
      if false in results {
        JoinKeepsInv(drained);
        var joined := JoinThread(drained);
        if joined.outcome == Done {
          ExtendQuiet(joined.next, [ThreadEnd]);
        }
      }
    }
  }

  /** A stop from RUNNING: the drained state keeps Inv, and Stop ends in it or in StopFinish. */
  lemma StopDrainKeepsInv(c: Coord, results: seq<bool>)
    requires Inv(c) && c.state == Running
    ensures var drained := c.(state := QuitRequested, log := c.log + Ticks(TicksUntil(results, false)));
      && Inv(drained)
      && Stop(c, results) == if false in results then StopFinish(drained) else Step(drained, Hung)
  {
    ExtendQuiet(c.(state := QuitRequested), Ticks(TicksUntil(results, false)));
  }

  lemma PauseKeepsInv(c: Coord, schedule: seq<bool>)
    requires Inv(c)
    ensures Inv(Pause(c, schedule).next)
  {
    if c.state == Running {
      var requested := c.(state := PauseRequested);
      PauseDrainEffect(requested, schedule);
      var n := if c.workerActive then TicksUntil(schedule, true) else |schedule|;
      ExtendQuiet(requested, Ticks(n));
      var r := Pause(c, schedule).next;
      assert r == requested.(log := requested.log + Ticks(n)).(state := r.state);
    }
  }

  lemma {:induction false} ApplyKeepsInv(c: Coord, op: Op)
    requires Inv(c)
    ensures Inv(Apply(c, op).next)
  {
    match op
    case WorkerTick =>
      if c.workerActive { WorkerKeepsInv(c); }
    case RenderTick =>
      if c.state != Paused { ExtendQuiet(c, [ThreadFrame, SwapBuffers]); }
    case StartCall => StartKeepsInv(c);
    case StopCall(results) => StopKeepsInv(c, results);
    case PauseCall(schedule) => PauseKeepsInv(c, schedule);
    case SetStateCall(request, schedule) =>
      if request == PauseRequested && c.threadStarted {
        PauseKeepsInv(c, schedule);
      } else if request == StartRequested && !c.threadStarted {
        StartKeepsInv(c);
      }
    case JoinCall => JoinKeepsInv(c);
  }

  /** Every run from a coordinator that keeps the accounting keeps it. */
  lemma {:induction false} RunKeepsInv(c: Coord, ops: seq<Op>)
    requires Inv(c)
    ensures Inv(Run(c, ops).next)
    decreases |ops|
  {
    if ops != [] {
      ApplyKeepsInv(c, ops[0]);
      var s := Apply(c, ops[0]);
      if !s.outcome.Halts() {
        RunKeepsInv(s.next, ops[1..]);
      }
    }
  }

  /** From the static initial state, any run keeps at most one emulation thread. */
  lemma AtMostOneThread(ops: seq<Op>)
    ensures var c := Run(Initial, ops).next;
      && Count(c.log, Spawn) - Count(c.log, Join) <= 1
      && (c.workerActive ==> c.threadLive)
  {
    RunKeepsInv(Initial, ops);
  }

  // ---------------------------------------------------------------------
  // threadStarted is never cleared.
  // ---------------------------------------------------------------------

  lemma {:induction false} ThreadStartedNeverCleared(c: Coord, ops: seq<Op>)
    requires c.threadStarted
    ensures Run(c, ops).next.threadStarted
    decreases |ops|
  {
    if ops != [] {
      var s := Apply(c, ops[0]);
      assert s.next.threadStarted by {
        match ops[0]
        case PauseCall(schedule) =>
          if c.state == Running { PauseDrainEffect(c.(state := PauseRequested), schedule); }
        case SetStateCall(request, schedule) =>
          if request == PauseRequested && c.state == Running {
            PauseDrainEffect(c.(state := PauseRequested), schedule);
          }
        case _ =>
      }
      if !s.outcome.Halts() {
        ThreadStartedNeverCleared(s.next, ops[1..]);
      }
    }
  }

  // ---------------------------------------------------------------------
  // Render ticks and worker iterations alone.
  // ---------------------------------------------------------------------

  predicate TicksOnly(ops: seq<Op>)
  {
    forall i :: 0 <= i < |ops| ==> ops[i] == WorkerTick || ops[i] == RenderTick
  }

  /**
   * Once PAUSED, no number of render ticks and worker iterations changes
   * anything: no frame is run, no call is made, the state stays PAUSED.
   */
  lemma {:induction false} PausedIsQuiet(c: Coord, ops: seq<Op>)
    requires c.state == Paused && TicksOnly(ops)
    ensures Run(c, ops) == Step(c, Done)
    decreases |ops|
  {
    if ops != [] {
      assert Apply(c, ops[0]).next == c;
      PausedIsQuiet(c, ops[1..]);
    }
  }

  /**
   * With no worker looping, render ticks and worker iterations never change
   * the state and make no call other than ThreadFrame and SwapBuffers: no
   * frame is run and no thread is started.
   */
  lemma {:induction false} NoWorkerNoFrames(c: Coord, ops: seq<Op>)
    requires !c.workerActive && TicksOnly(ops)
    ensures var r := Run(c, ops);
      && r.outcome == Done
      && r.next.(log := c.log) == c
      && forall e | e != ThreadFrame && e != SwapBuffers :: Count(r.next.log, e) == Count(c.log, e)
    decreases |ops|
  {
    if ops != [] {
      var s := Apply(c, ops[0]);
      assert s.next.(log := c.log) == c;
      forall e | e != ThreadFrame && e != SwapBuffers
        ensures Count(s.next.log, e) == Count(c.log, e)
      {
        CountAppend(c.log, [ThreadFrame, SwapBuffers], e);
      }
      NoWorkerNoFrames(s.next, ops[1..]);
    }
  }

  /**
   * Because `threadStarted` is never cleared, a START_REQUESTED request made
   * through NativeSetThreadState once `threadStarted` is set and the worker
   * has exited (after a completed EmuThreadStop, say) is only stored: no thread is spawned, and
   * no later render tick or worker iteration runs a frame or moves the
   * state on from START_REQUESTED.
   */
  lemma StartRequestAfterExitRunsNothing(c: Coord, schedule: seq<bool>, ops: seq<Op>)
    requires c.threadStarted && !c.workerActive && TicksOnly(ops)
    ensures var r := Run(c, [SetStateCall(StartRequested, schedule)] + ops);
      && r.outcome == Done
      && r.next.state == StartRequested
      && !r.next.workerActive
      && Count(r.next.log, EmuFrame) == Count(c.log, EmuFrame)
      && Count(r.next.log, Spawn) == Count(c.log, Spawn)
  {
    var stored := c.(state := StartRequested);
    assert Run(c, [SetStateCall(StartRequested, schedule)]) == Step(stored, Done);
    RunAppend(c, [SetStateCall(StartRequested, schedule)], ops);
    NoWorkerNoFrames(stored, ops);
  }

  // ---------------------------------------------------------------------
  // Whole sessions.
  // ---------------------------------------------------------------------

  /** `n` rounds of one worker iteration followed by one render tick. */
  function FrameLoop(n: nat): (ops: seq<Op>)
    ensures |ops| == 2 * n && TicksOnly(ops)
  {
    if n == 0 then [] else [WorkerTick, RenderTick] + FrameLoop(n - 1)
  }

  /** The calls `n` rounds of FrameLoop make while the worker is RUNNING. */
  function FrameLog(n: nat): (events: seq<Event>)
  {
    if n == 0 then [] else [EmuFrame, ThreadFrame, SwapBuffers] + FrameLog(n - 1)
  }

  /** Each round of FrameLog is one frame, one ThreadFrame and one SwapBuffers. */
  lemma {:induction false} CountFrameLog(n: nat, e: Event)
    ensures Count(FrameLog(n), e) == if e == EmuFrame || e == ThreadFrame || e == SwapBuffers then n else 0
  {
    if n > 0 {
      CountAppend([EmuFrame, ThreadFrame, SwapBuffers], FrameLog(n - 1), e);
      CountFrameLog(n - 1, e);
    }
  }

  /**
   * While RUNNING, every worker iteration runs one frame and every render
   * tick consumes it with one ThreadFrame and presents it with one
   * SwapBuffers; nothing else changes.
   */
  lemma {:induction false} RunningFrames(c: Coord, n: nat)
    requires c.state == Running && c.workerActive
    ensures Run(c, FrameLoop(n)) == Step(c.(log := c.log + FrameLog(n)), Done)
    decreases n
  {
    if n == 0 {
      assert c.log + [] == c.log;
    } else {
      var rest := FrameLoop(n - 1);
      var ops := [WorkerTick, RenderTick] + rest;
      assert ops[0] == WorkerTick && ops[1..][0] == RenderTick && ops[1..][1..] == rest;
      var c2 := c.(log := c.log + [EmuFrame] + [ThreadFrame, SwapBuffers]);
      assert Run(c, ops) == Run(c2, rest);
      RunningFrames(c2, n - 1);
      assert c2.log + FrameLog(n - 1) == c.log + FrameLog(n);
    }
  }

  /**
   * Pause, two render ticks and a worker iteration, start again, one more
   * frame, stop; `schedule` and `results` are the oracles of the pause's
   * wait loop and of the stop's drain.
   */
  function Closing(schedule: seq<bool>, results: seq<bool>): (ops: seq<Op>)
  {
    [PauseCall(schedule), RenderTick, RenderTick, WorkerTick]
    + [StartCall, WorkerTick, StopCall(results)]
  }

  /** Start; `n` rounds of a frame and a render tick; then Closing. */
  function Session(n: nat, schedule: seq<bool>, results: seq<bool>): (ops: seq<Op>)
  {
    [StartCall] + FrameLoop(n) + Closing(schedule, results)
  }

  /**
   * The calls Closing makes from RUNNING: `k` pause rounds, the frame after
   * the resume, `m` drain calls, the worker's exit, the join and ThreadEnd.
   */
  function ClosingLog(k: nat, m: nat): (events: seq<Event>)
  {
    Ticks(k) + [EmuFrame] + Ticks(m) + [StopThread, Join, ThreadEnd]
  }

  /** The calls of a whole session. */
  function SessionLog(n: nat, k: nat, m: nat): (events: seq<Event>)
  {
    [ThreadStart, Spawn] + FrameLog(n) + ClosingLog(k, m)
  }

  /**
   * A freshly spawned worker, START_REQUESTED, sets threadStarted and RUNNING
   * on its first iteration, then runs `n` rounds of frames like any RUNNING worker.
   */
  lemma FirstRounds(n: nat)
    requires n >= 1
    ensures Run(Coord(StartRequested, false, true, true, [ThreadStart, Spawn]), FrameLoop(n))
            == Step(Coord(Running, true, true, true, [ThreadStart, Spawn] + FrameLog(n)), Done)
  {
    var c1 := Coord(StartRequested, false, true, true, [ThreadStart, Spawn]);
    var loop := FrameLoop(n);
    var rest := FrameLoop(n - 1);
    assert loop[0] == WorkerTick && loop[1..][0] == RenderTick && loop[1..][1..] == rest;
    var cw := Coord(Running, true, true, true, [ThreadStart, Spawn, EmuFrame]);
    var c2 := Coord(Running, true, true, true, [ThreadStart, Spawn, EmuFrame, ThreadFrame, SwapBuffers]);
    assert Worker(c1) == cw;
    assert Run(c1, loop) == Run(cw, loop[1..]);
    assert Render(cw) == c2;
    assert Run(cw, loop[1..]) == Run(c2, rest);
    RunningFrames(c2, n - 1);
    assert c2.log + FrameLog(n - 1) == [ThreadStart, Spawn] + FrameLog(n);
  }

  /** Start, then `n` rounds: one thread, `n` frames, the worker RUNNING. */
  lemma SessionOpening(n: nat)
    requires n >= 1
    ensures Run(Initial, [StartCall] + FrameLoop(n))
            == Step(Coord(Running, true, true, true, [ThreadStart, Spawn] + FrameLog(n)), Done)
  {
    var c1 := Coord(StartRequested, false, true, true, [ThreadStart, Spawn]);
    assert Initial.log + [ThreadStart, Spawn] == [ThreadStart, Spawn];
    assert Run(Initial, [StartCall]) == Step(c1, Done);
    FirstRounds(n);
    RunAppend(Initial, [StartCall], FrameLoop(n));
  }

  /**
   * From RUNNING with the worker looping, whenever the worker runs during
   * some sleep of the pause and some drain call returns false: the pause
   * settles in PAUSED, the idle ticks change nothing, the start resumes the
   * same worker in place, and the stop leaves STOPPED with the thread
   * joined and ThreadEnd last.
   */
  lemma SessionClosing(log: seq<Event>, schedule: seq<bool>, results: seq<bool>)
    requires true in schedule && false in results
    ensures Run(Coord(Running, true, true, true, log), Closing(schedule, results))
            == Step(Coord(Stopped, true, false, false,
                          log + ClosingLog(TicksUntil(schedule, true), TicksUntil(results, false))), Done)
  {
    var k := TicksUntil(schedule, true);
    var m := TicksUntil(results, false);
    var pause: seq<Op> := [PauseCall(schedule), RenderTick, RenderTick, WorkerTick];
    var tail: seq<Op> := [StartCall, WorkerTick, StopCall(results)];
    assert Closing(schedule, results) == pause + tail;
    var c := Coord(Running, true, true, true, log);
    PauseSettles(log, schedule);
    ResumeAndStop(log + Ticks(k), results);
    assert log + Ticks(k) + [EmuFrame] + Ticks(m) + [StopThread] + [Join, ThreadEnd] == log + ClosingLog(k, m);
    RunAppend(c, pause, tail);
  }

  /** The pause of Closing settles in PAUSED, and the idle ticks after it change nothing. */
  lemma PauseSettles(log: seq<Event>, schedule: seq<bool>)
    requires true in schedule
    ensures Run(Coord(Running, true, true, true, log), [PauseCall(schedule), RenderTick, RenderTick, WorkerTick])
            == Step(Coord(Paused, true, true, true, log + Ticks(TicksUntil(schedule, true))), Done)
  {
    var pause: seq<Op> := [PauseCall(schedule), RenderTick, RenderTick, WorkerTick];
    var c := Coord(Running, true, true, true, log);
    var paused := Coord(Paused, true, true, true, log + Ticks(TicksUntil(schedule, true)));
    PauseReturns(log, schedule);
    assert Apply(c, pause[0]) == Step(paused, Done);
    PausedIsQuiet(paused, pause[1..]);
    assert Run(c, pause) == Run(paused, pause[1..]);
  }

  lemma PauseReturns(log: seq<Event>, schedule: seq<bool>)
    requires true in schedule
    ensures Pause(Coord(Running, true, true, true, log), schedule)
            == Step(Coord(Paused, true, true, true, log + Ticks(TicksUntil(schedule, true))), Done)
  {
    PauseDrainEffect(Coord(PauseRequested, true, true, true, log), schedule);
  }

  /** From PAUSED, the start of Closing resumes in place, and the stop after one frame completes. */
  lemma ResumeAndStop(log: seq<Event>, results: seq<bool>)
    requires false in results
    ensures Run(Coord(Paused, true, true, true, log), [StartCall, WorkerTick, StopCall(results)])
            == Step(Coord(Stopped, true, false, false,
                          log + [EmuFrame] + Ticks(TicksUntil(results, false)) + [StopThread] + [Join, ThreadEnd]), Done)
  {
    var tail: seq<Op> := [StartCall, WorkerTick, StopCall(results)];
    var paused := Coord(Paused, true, true, true, log);
    var resumed := paused.(state := StartRequested);
    var running := paused.(state := Running, log := log + [EmuFrame]);
    assert Run(paused, tail) == Run(resumed, tail[1..]);
    assert Run(resumed, tail[1..]) == Run(running, tail[2..]);
    StopCompletes(running, results);
    var stopped := Coord(Stopped, true, false, false,
                         running.log + Ticks(TicksUntil(results, false)) + [StopThread] + [Join, ThreadEnd]);
    assert Stop(running, results) == Step(stopped, Done);
    assert Run(running, tail[2..]) == Run(stopped, []);
  }

  /**
   * From PAUSED, a stop that comes before the worker's next iteration finds
   * START_REQUESTED and is ignored: no drain, no join, and the worker is
   * still held and still looping.
   */
  lemma StopBeforeResumeIsIgnored(log: seq<Event>, results: seq<bool>)
    ensures var resumed := Coord(StartRequested, true, true, true, log);
      && Stop(resumed, results) == Step(resumed, Ignored)
      && Run(Coord(Paused, true, true, true, log), [StartCall, StopCall(results)]) == Step(resumed, Done)
  {
    var ops: seq<Op> := [StartCall, StopCall(results)];
    var paused := Coord(Paused, true, true, true, log);
    var resumed := paused.(state := StartRequested);
    assert Start(paused) == Step(resumed, Done);
    assert Run(paused, ops) == Run(resumed, ops[1..]);
    assert Run(resumed, ops[1..]) == Run(resumed, []);
  }

  lemma ClosingLogCount(k: nat, m: nat, e: Event)
    ensures Count(ClosingLog(k, m), e)
            == Count([EmuFrame], e) + Count([StopThread, Join, ThreadEnd], e)
               + if e == ThreadFrame then k + m else 0
  {
    CountAppend(Ticks(k), [EmuFrame], e);
    CountAppend(Ticks(k) + [EmuFrame], Ticks(m), e);
    CountAppend(Ticks(k) + [EmuFrame] + Ticks(m), [StopThread, Join, ThreadEnd], e);
    CountTicks(k, e);
    CountTicks(m, e);
  }

  lemma SessionLogSplit(n: nat, k: nat, m: nat, e: Event)
    ensures Count(SessionLog(n, k, m), e)
            == Count([ThreadStart, Spawn], e) + Count([EmuFrame], e) + Count([StopThread, Join, ThreadEnd], e)
               + (if e == ThreadFrame then k + m else 0)
               + if e == EmuFrame || e == ThreadFrame || e == SwapBuffers then n else 0
  {
    CountAppend([ThreadStart, Spawn], FrameLog(n), e);
    CountAppend([ThreadStart, Spawn] + FrameLog(n), ClosingLog(k, m), e);
    CountFrameLog(n, e);
    ClosingLogCount(k, m, e);
  }

  /**
   * The frames of a session: `n` + 1 (one after the resume), `n` buffer
   * swaps, and one ThreadFrame per frame-loop render tick (the idle ticks
   * while PAUSED make none), per pause round and per drain call.
   */
  lemma SessionFrameCounts(n: nat, k: nat, m: nat)
    ensures Count(SessionLog(n, k, m), EmuFrame) == n + 1
    ensures Count(SessionLog(n, k, m), SwapBuffers) == n
    ensures Count(SessionLog(n, k, m), ThreadFrame) == n + k + m
  {
    SessionLogSplit(n, k, m, EmuFrame);
    SessionLogSplit(n, k, m, SwapBuffers);
    SessionLogSplit(n, k, m, ThreadFrame);
  }

  /** The thread calls of a session: one each of ThreadStart, spawn, StopThread, join and ThreadEnd. */
  lemma SessionThreadCounts(n: nat, k: nat, m: nat)
    ensures var log := SessionLog(n, k, m);
      && Count(log, ThreadStart) == 1
      && Count(log, Spawn) == 1
      && Count(log, StopThread) == 1
      && Count(log, Join) == 1
      && Count(log, ThreadEnd) == 1
  {
    SessionLogSplit(n, k, m, ThreadStart);
    SessionLogSplit(n, k, m, Spawn);
    SessionLogSplit(n, k, m, StopThread);
    SessionLogSplit(n, k, m, Join);
    SessionLogSplit(n, k, m, ThreadEnd);
  }

  /**
   * A session with at least one round of frames before the pause, whatever
   * the oracles, as long as the worker runs during some sleep of the pause
   * and some drain call returns false: it ends STOPPED with no thread, after
   * `n` + 1 frames, `n` buffer swaps, at least `n` + 2 ThreadFrame calls,
   * and one each of ThreadStart, spawn, StopThread, join and ThreadEnd. With
   * no round, see SessionWithoutFramesTerminates.
   */
  lemma StartPauseResumeStop(n: nat, schedule: seq<bool>, results: seq<bool>)
    requires n >= 1 && true in schedule && false in results
    ensures var r := Run(Initial, Session(n, schedule, results));
      && r.outcome == Done
      && r.next.state == Stopped && r.next.threadStarted
      && !r.next.threadLive && !r.next.workerActive
      && Count(r.next.log, EmuFrame) == n + 1
      && Count(r.next.log, SwapBuffers) == n
      && Count(r.next.log, ThreadFrame) == n + TicksUntil(schedule, true) + TicksUntil(results, false) >= n + 2
      && Count(r.next.log, ThreadStart) == 1
      && Count(r.next.log, Spawn) == 1
      && Count(r.next.log, StopThread) == 1
      && Count(r.next.log, Join) == 1
      && Count(r.next.log, ThreadEnd) == 1
  {
    var k := TicksUntil(schedule, true);
    var m := TicksUntil(results, false);
    var opening := [StartCall] + FrameLoop(n);
    SessionOpening(n);
    SessionClosing([ThreadStart, Spawn] + FrameLog(n), schedule, results);
    RunAppend(Initial, opening, Closing(schedule, results));
    assert Run(Initial, Session(n, schedule, results)).next.log == SessionLog(n, k, m);
    SessionFrameCounts(n, k, m);
    SessionThreadCounts(n, k, m);
  }

  /**
   * The session of StartPauseResumeStop without the worker iteration between
   * the resume and the stop: the stop is ignored, and the session returns
   * in START_REQUESTED with the worker still held and still looping, and no
   * StopThread, join or ThreadEnd.
   */
  lemma StopBeforeResumeKeepsWorker(n: nat, schedule: seq<bool>, results: seq<bool>)
    requires n >= 1 && true in schedule
    ensures var r := Run(Initial, [StartCall] + FrameLoop(n) + [PauseCall(schedule), StartCall, StopCall(results)]);
      && r.outcome == Done
      && r.next == Coord(StartRequested, true, true, true,
                         [ThreadStart, Spawn] + FrameLog(n) + Ticks(TicksUntil(schedule, true)))
  {
    var opening := [StartCall] + FrameLoop(n);
    var log := [ThreadStart, Spawn] + FrameLog(n);
    var k := TicksUntil(schedule, true);
    var running := Coord(Running, true, true, true, log);
    var paused := Coord(Paused, true, true, true, log + Ticks(k));
    var rest: seq<Op> := [StartCall, StopCall(results)];
    SessionOpening(n);
    PauseReturns(log, schedule);
    assert Run(running, [PauseCall(schedule)] + rest) == Run(paused, rest);
    StopBeforeResumeIsIgnored(log + Ticks(k), results);
    assert opening + [PauseCall(schedule), StartCall, StopCall(results)] == opening + ([PauseCall(schedule)] + rest);
    RunAppend(Initial, opening, [PauseCall(schedule)] + rest);
  }

  /**
   * A pause requested before the worker's first iteration finds
   * START_REQUESTED and is ignored; the next EmuThreadStart then assigns a
   * new thread over the joinable one, whatever the pause's schedule.
   */
  lemma StartPauseStartTerminates(schedule: seq<bool>)
    ensures var c1 := Coord(StartRequested, false, true, true, [ThreadStart, Spawn]);
      && Run(Initial, [StartCall]) == Step(c1, Done)
      && Pause(c1, schedule) == Step(c1, Ignored)
      && Run(Initial, [StartCall, PauseCall(schedule), StartCall]).outcome == Terminated
  {
    var c1 := Coord(StartRequested, false, true, true, [ThreadStart, Spawn]);
    var ops := [StartCall, PauseCall(schedule), StartCall];
    assert Initial.log + [ThreadStart, Spawn] == [ThreadStart, Spawn];
    assert Start(Initial) == Step(c1, Done);
    assert Run(Initial, ops) == Run(c1, ops[1..]);
    assert Run(c1, ops[1..]) == Run(c1, ops[2..]);
  }

  /**
   * The same session with no round of frames before the pause: the pause
   * is ignored, the worker then reaches RUNNING during the idle ticks, and
   * the second EmuThreadStart assigns a new thread over the joinable one.
   * The stop is never reached.
   */
  lemma SessionWithoutFramesTerminates(schedule: seq<bool>, results: seq<bool>)
    ensures Run(Initial, Session(0, schedule, results)).outcome == Terminated
  {
    var ops := Session(0, schedule, results);
    assert ops == [StartCall, PauseCall(schedule), RenderTick, RenderTick, WorkerTick,
                   StartCall, WorkerTick, StopCall(results)];
    var c1 := Coord(StartRequested, false, true, true, [ThreadStart, Spawn]);
    var c2 := c1.(log := c1.log + [ThreadFrame, SwapBuffers]);
    var c3 := c2.(log := c2.log + [ThreadFrame, SwapBuffers]);
    var c4 := c3.(state := Running, threadStarted := true, log := c3.log + [EmuFrame]);
    assert Initial.log + [ThreadStart, Spawn] == [ThreadStart, Spawn];
    assert Start(Initial) == Step(c1, Done);
    assert Run(Initial, ops) == Run(c1, ops[1..]);
    assert Run(c1, ops[1..]) == Run(c1, ops[2..]);
    assert Run(c1, ops[2..]) == Run(c2, ops[3..]);
    assert Run(c2, ops[3..]) == Run(c3, ops[4..]);
    assert Worker(c3) == c4;
    assert Run(c3, ops[4..]) == Run(c4, ops[5..]);
    assert Start(c4).outcome == Terminated;
  }

  /**
   * Two START_REQUESTED requests through NativeSetThreadState before the
   * worker's first iteration both reach EmuThreadStart (`threadStarted` is
   * still false), and the second assigns a new thread over the joinable one.
   */
  lemma DoubleStartRequestTerminates(schedule: seq<bool>)
    ensures Run(Initial, [SetStateCall(StartRequested, schedule), SetStateCall(StartRequested, schedule)]).outcome
            == Terminated
  {
  }

  /**
   * A worker can exit without ever setting `threadStarted`: a QUIT_REQUESTED
   * request stored before its first iteration sends it down the `default`
   * branch. The handle is still joinable, so the next START_REQUESTED goes
   * to EmuThreadStart, which assigns a new thread over the joinable one.
   */
  lemma ExitBeforeFirstIterationThenStartTerminates(schedule: seq<bool>)
    ensures var exited := Run(Initial, [SetStateCall(StartRequested, schedule), SetStateCall(QuitRequested, schedule), WorkerTick]);
      && exited.outcome == Done
      && !exited.next.threadStarted && exited.next.threadLive && !exited.next.workerActive
      && Run(Initial, [SetStateCall(StartRequested, schedule), SetStateCall(QuitRequested, schedule), WorkerTick,
                       SetStateCall(StartRequested, schedule)]).outcome == Terminated
  {
    var ops := [SetStateCall(StartRequested, schedule), SetStateCall(QuitRequested, schedule), WorkerTick,
                SetStateCall(StartRequested, schedule)];
    var c1 := Coord(StartRequested, false, true, true, [ThreadStart, Spawn]);
    var c2 := c1.(state := QuitRequested);
    var c3 := Coord(Stopped, false, true, false, [ThreadStart, Spawn, StopThread]);
    var pre := [SetStateCall(StartRequested, schedule), SetStateCall(QuitRequested, schedule), WorkerTick];
    assert Initial.log + [ThreadStart, Spawn] == [ThreadStart, Spawn];
    assert Start(Initial) == Step(c1, Done);
    assert Worker(c2) == c3;
    assert Run(Initial, pre) == Run(c1, pre[1..]);
    assert Run(c1, pre[1..]) == Run(c2, pre[2..]);
    assert Run(c2, pre[2..]) == Run(c3, []);
    assert Run(Initial, ops) == Run(c1, ops[1..]);
    assert Run(c1, ops[1..]) == Run(c2, ops[2..]);
    assert Run(c2, ops[2..]) == Run(c3, ops[3..]);
    assert Start(c3).outcome == Terminated;
  }

  /**
   * Once the worker has run one iteration, the same second request is only
   * stored and the session goes on with one thread.
   */
  lemma StartRequestAfterFirstIterationIsStored(schedule: seq<bool>)
    ensures var r := Run(Initial, [SetStateCall(StartRequested, schedule), WorkerTick, SetStateCall(StartRequested, schedule)]);
      && r.outcome == Done
      && r.next == Coord(StartRequested, true, true, true, [ThreadStart, Spawn, EmuFrame])
  {
    var ops := [SetStateCall(StartRequested, schedule), WorkerTick, SetStateCall(StartRequested, schedule)];
    var c1 := Coord(StartRequested, false, true, true, [ThreadStart, Spawn]);
    var c2 := Coord(Running, true, true, true, [ThreadStart, Spawn, EmuFrame]);
    assert Initial.log + [ThreadStart, Spawn] == [ThreadStart, Spawn];
    assert Start(Initial) == Step(c1, Done);
    assert Run(Initial, ops) == Run(c1, ops[1..]);
    assert Worker(c1) == c2;
    assert Run(c1, ops[1..]) == Run(c2, ops[2..]);
    assert Run(c2, ops[2..]) == Step(c2.(state := StartRequested), Done);
  }
}
