/** The phases of a timed test: which timer runs when, that the test ends, and when connections are started. */
module Phases {

  import opened Basics
  import opened ClientLifecycle
  import opened ClientInvariants
  import opened Outcomes
  import opened RequestsLeft

  /** Each timer runs in exactly the phases that it ends, and the grace period is for scenarios only. */
  ghost predicate TimersRun(cfg: Config, w: Worker) {
    && (w.warmupArmed <==> w.phase == WarmUp)
    && (w.durationArmed <==> w.phase == MainDuration || w.phase == GracefulShutdown)
    && (w.phase == GracefulShutdown ==> cfg.hasScenarios)
  }

  lemma StepTimers(cfg: Config, w: Worker, st: Step)
    requires TimersRun(cfg, w) && StepEnabled(cfg, w, st)
    ensures TimersRun(cfg, WorkerStep(cfg, w, st))
  {
    hide ClientOp;
    hide Enabled;
    match st
    case ClientStep(i, e) => PhaseChange(cfg, LocalOf(w, i), e);
    case _ =>
  }

  lemma {:induction false} RunTimers(cfg: Config, w: Worker, steps: seq<Step>)
    requires TimersRun(cfg, w) && ValidRun(cfg, w, steps)
    ensures TimersRun(cfg, Run(cfg, w, steps))
    decreases |steps|
  {
    hide TimersRun;
    hide WorkerStep;
    hide StepEnabled;
    if steps != [] {
      StepTimers(cfg, w, steps[0]);
      RunTimers(cfg, WorkerStep(cfg, w, steps[0]), steps[1..]);
    }
  }

  /** In every reachable state of a timed test. */
  lemma TimersAlwaysRun(cfg: Config, todos: seq<nat>, steps: seq<Step>)
    requires cfg.timingBased && ValidRun(cfg, NewWorker(cfg, todos), steps)
    ensures TimersRun(cfg, Run(cfg, NewWorker(cfg, todos), steps))
  {
    RunTimers(cfg, NewWorker(cfg, todos), steps);
  }

  // ---------------------------------------------------------------------------------------
  // The test ends
  // ---------------------------------------------------------------------------------------

  /** The timers that are still to fire. */
  ghost function TimersLeft(cfg: Config, phase: Phase): seq<Step>
    decreases DurationOver.Rank() - phase.Rank()
  {
    match phase
    case InitialIdle => []
    case WarmUp => [WarmupTimeout] + TimersLeft(cfg, MainDuration)
    case MainDuration =>
      [DurationTimeout] + TimersLeft(cfg, if cfg.hasScenarios then GracefulShutdown else DurationOver)
    case GracefulShutdown => [DurationTimeout] + TimersLeft(cfg, DurationOver)
    case DurationOver => []
  }

  /** Once it has begun, the timers can fire one after the other, and when they have the test is over. */
  lemma {:induction false} TimedTestEnds(cfg: Config, w: Worker)
    requires TimersRun(cfg, w) && w.phase != InitialIdle
    ensures ValidRun(cfg, w, TimersLeft(cfg, w.phase))
    ensures Run(cfg, w, TimersLeft(cfg, w.phase)).phase == DurationOver
    decreases DurationOver.Rank() - w.phase.Rank()
  {
    if w.phase != DurationOver {
      var st := if w.phase == WarmUp then WarmupTimeout else DurationTimeout;
      StepTimers(cfg, w, st);
      var v := WorkerStep(cfg, w, st);
      TimedTestEnds(cfg, v);
      var steps := TimersLeft(cfg, w.phase);
      assert steps[0] == st && steps[1..] == TimersLeft(cfg, v.phase);
    }
  }

  // ---------------------------------------------------------------------------------------
  // Connections
  // ---------------------------------------------------------------------------------------

  /** The first connection of a timed test starts the warm-up and its timer. */
  lemma FirstConnection(cfg: Config, w: Worker, i: nat)
    requires cfg.timingBased && w.phase == InitialIdle && i < |w.clients|
    requires w.clients[i].conn == Idle && w.clients[i].left > 0
    ensures var v := WorkerStep(cfg, w, ClientStep(i, ConnectEvent));
            v.phase == WarmUp && v.warmupArmed && v.clients[i].conn == Connecting
  {
  }

  /** The connection of a client after an event, for every event in every mode. */
  ghost function ConnectionAfter(cfg: Config, s: Local, e: Event): ConnState {
    match e
    case ConnectEvent => if s.c.left > 0 && s.phase in {InitialIdle, WarmUp, MainDuration} then Connecting else s.c.conn
    case MadeEvent(_, _) => Connected
    case ErrorEvent => if MayReconnect(cfg, s) then Connecting else Idle
    case TimeoutEvent => if MayReconnect(cfg, s) then s.c.conn else Idle
    case FailEvent => Idle
    case SwitchEvent => Connecting
    case _ => s.c.conn
  }

  lemma ConnectionIs(cfg: Config, s: Local, e: Event)
    requires Enabled(cfg, s, e)
    ensures ClientOp(cfg, s, e).c.conn == ConnectionAfter(cfg, s, e)
  {
    hide SubmitRequest;
    hide SubmitLoop;
    hide ConnectionMade;
    hide OnRpsTimer;
    hide OnStreamClose;
    hide Fail;
    hide ConnectionError;
    hide Timeout;
    match e
    case MadeEvent(now, os) => MadeConnects(cfg, s, now, os);
    case CloseEvent(id, success, statusOk, final, o) => CloseKeepsConn(cfg, s, id, success, statusOk, final, o);
    case TickEvent(now, os) => TickKeepsConn(cfg, s, now, os);
    case FailEvent => FailLoses(cfg, s);
    case ErrorEvent => ErrorLoses(cfg, s);
    case TimeoutEvent => TimeoutLoses(cfg, s);
    case _ =>
  }
}
