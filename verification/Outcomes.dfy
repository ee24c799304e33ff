/** What the report says of the outcomes: for every run of a worker, in every mode, each counter is the number of
    events of its kind.

    A stream is counted when it closes, in the main phase or the graceful shutdown, if it was opened for the
    statistics.  Requests that were given up in bulk are failures and errors.
 */
module Outcomes {

  import opened Basics
  import opened ClientLifecycle
  import opened ClientInvariants
  import opened TimedMode

  /** Closed streams that were counted: answered with a good status, answered with another, not answered; and the
      requests in flight when a connection timed out for good. */
  datatype Tally = Tally(good: nat, bad: nat, reset: nat, timedout: nat)

  const NOTHING := Tally(0, 0, 0, 0)

  function Plus(a: Tally, b: Tally): Tally {
    Tally(a.good + b.good, a.bad + b.bad, a.reset + b.reset, a.timedout + b.timedout)
  }

  /** What one event of a client adds. */
  function TallyOf(cfg: Config, s: Local, e: Event): Tally {
    match e
    case CloseEvent(id, success, statusOk, _, _) =>
      if (s.phase != MainDuration && s.phase != GracefulShutdown) || id !in s.c.eligible then NOTHING
      else if !success then Tally(0, 0, 1, 0)
      else if statusOk then Tally(1, 0, 0, 0)
      else Tally(0, 1, 0, 0)
    case TimeoutEvent =>
      if s.phase == MainDuration && !MayReconnect(cfg, s) then Tally(0, 0, 0, s.c.inflight) else NOTHING
    case _ => NOTHING
  }

  /** The counters moved by the tally `d`, and by what the client gave up. */
  ghost predicate MovedBy(s: Local, t: Local, d: Tally) {
    && t.c.h.abandoned >= s.c.h.abandoned
    && var given := t.c.h.abandoned - s.c.h.abandoned;
    && t.stats.statusSuccess == s.stats.statusSuccess + d.good
    && t.stats.success == s.stats.success + d.good + d.bad
    && t.stats.failed == s.stats.failed + given + d.bad + d.reset
    && t.stats.error == s.stats.error + given + d.reset
    && t.stats.done == s.stats.done + d.good + d.bad + d.reset
    && t.stats.timedout == s.stats.timedout + d.timedout
  }

  lemma MovedTwice(s: Local, t: Local, u: Local, a: Tally, b: Tally)
    requires MovedBy(s, t, a) && MovedBy(t, u, b)
    ensures MovedBy(s, u, Plus(a, b))
  {
  }

  lemma SubmitMoves(cfg: Config, s: Local, o: Outcome)
    ensures MovedBy(s, SubmitRequest(cfg, s, o).after, NOTHING)
  {
  }

  lemma {:induction false} LoopMoves(cfg: Config, s: Local, n: nat, os: seq<Outcome>, i: nat, paced: bool)
    ensures MovedBy(s, SubmitLoop(cfg, s, n, os, i, paced), NOTHING)
    decreases n
  {
    hide SubmitRequest;
    if n > 0 {
      SubmitMoves(cfg, s, Answer(os, i));
      var r := SubmitRequest(cfg, s, Answer(os, i));
      LoopMoves(cfg, if paced then TakePending(r.after) else r.after, n - 1, os, i + 1, paced);
    }
  }

  lemma MadeMoves(cfg: Config, s: Local, now: real, os: seq<Outcome>)
    ensures MovedBy(s, ConnectionMade(cfg, s, now, os), NOTHING)
  {
    hide SubmitRequest;
    hide SubmitLoop;
    var s1 := s.(c := FreshConnection(s.c));
    SubmitMoves(cfg, s1.(c := StartClock(s1.c, now)), Answer(os, 0));
    LoopMoves(cfg, s1, if cfg.timingBased then Max(s.c.left, cfg.maxStreams) else Min(s.c.left, cfg.maxStreams),
              os, 0, false);
  }

  lemma TickMoves(cfg: Config, s: Local, now: real, os: seq<Outcome>)
    requires cfg.rps > 0.0
    ensures MovedBy(s, OnRpsTimer(cfg, s, now, os), NOTHING)
  {
    hide SubmitRequest;
    hide SubmitLoop;
    hide Round;
    if s.c.conn == Connected && now - s.c.rpsStart >= 0.0 {
      var s1 := s.(c := Grant(cfg, s.c, now));
      var room := WrapSub(cfg.maxStreams, |s.c.streams|);
      LoopMoves(cfg, s1, Min(if cfg.timingBased then Max(room, s.c.left) else Min(room, s.c.left), s1.c.rpsPending),
                os, 0, true);
    }
  }

  lemma GoneMoves(cfg: Config, s: Local, id: nat, success: bool, statusOk: bool, e: Event)
    requires s.c.eligible <= s.c.streams
    requires e.CloseEvent? && e.id == id && e.success == success && e.statusOk == statusOk
    ensures MovedBy(s, StreamGone(cfg, s, id, success, statusOk), TallyOf(cfg, s, e))
  {
  }

  lemma RefillMoves(cfg: Config, s: Local, final: bool, o: Outcome)
    ensures MovedBy(s, Refill(cfg, s, final, o), NOTHING)
  {
    hide SubmitRequest;
    SubmitMoves(cfg, s, o);
  }

  lemma CloseMoves(cfg: Config, s: Local, id: nat, success: bool, statusOk: bool, final: bool, o: Outcome)
    requires s.c.eligible <= s.c.streams
    ensures MovedBy(s, OnStreamClose(cfg, s, id, success, statusOk, final, o),
                    TallyOf(cfg, s, CloseEvent(id, success, statusOk, final, o)))
  {
    hide Refill;
    hide StreamGone;
    hide TallyOf;
    hide MovedBy;
    var s1, e := StreamGone(cfg, s, id, success, statusOk), CloseEvent(id, success, statusOk, final, o);
    GoneMoves(cfg, s, id, success, statusOk, e);
    RefillMoves(cfg, s1, final, o);
    MovedTwice(s, s1, Refill(cfg, s1, final, o), TallyOf(cfg, s, e), NOTHING);
    PlusNothing(TallyOf(cfg, s, e));
  }

  lemma FailMoves(cfg: Config, s: Local)
    ensures MovedBy(s, Fail(cfg, s), NOTHING)
  {
  }

  lemma ErrorMoves(cfg: Config, s: Local)
    ensures MovedBy(s, ConnectionError(cfg, s), NOTHING)
  {
    hide *;
    var t := Fail(cfg, Fail(cfg, s));
    ErrorIs(cfg, s);
    FailMoves(cfg, s);
    FailMoves(cfg, Fail(cfg, s));
    MovedTwice(s, Fail(cfg, s), t, NOTHING, NOTHING);
    PlusNothing(NOTHING);
    ConnectingMoves(s, t);
  }

  lemma PlusNothing(t: Tally)
    ensures Plus(t, NOTHING) == t && Plus(NOTHING, t) == t
  {
  }

  lemma ErrorIs(cfg: Config, s: Local)
    ensures var t := Fail(cfg, Fail(cfg, s));
            ConnectionError(cfg, s) == t || ConnectionError(cfg, s) == t.(c := t.c.(conn := Connecting))
  {
    hide Fail;
    hide ShouldReconnect;
  }

  lemma ConnectingMoves(s: Local, t: Local)
    requires MovedBy(s, t, NOTHING)
    ensures MovedBy(s, t.(c := t.c.(conn := Connecting)), NOTHING)
  {
  }

  lemma EventMoves(cfg: Config, s: Local, e: Event)
    requires Enabled(cfg, s, e) && s.c.eligible <= s.c.streams
    ensures MovedBy(s, ClientOp(cfg, s, e), TallyOf(cfg, s, e))
  {
    hide ConnectionMade;
    hide OnStreamClose;
    hide OnRpsTimer;
    hide Fail;
    hide ConnectionError;
    match e
    case FailEvent => FailMoves(cfg, s);
    case ErrorEvent => ErrorMoves(cfg, s);
    case MadeEvent(now, os) => MadeMoves(cfg, s, now, os);
    case CloseEvent(id, success, statusOk, final, o) => CloseMoves(cfg, s, id, success, statusOk, final, o);
    case TickEvent(now, os) => TickMoves(cfg, s, now, os);
    case _ =>
  }

  /** The client may connect again: reconnection is on, the main phase is not over, and requests are left. */
  predicate MayReconnect(cfg: Config, s: Local) {
    cfg.retry && s.c.left > 0 && s.phase in {InitialIdle, WarmUp, MainDuration}
  }

  /** What a lost connection costs, and that it costs it once: the requests in flight, and if the client may not
      reconnect also those left.  Outside the main phase it costs nothing. */
  ghost predicate Lost(cfg: Config, s: Local, t: Local) {
    if s.phase != MainDuration
    then t.c.h.abandoned == s.c.h.abandoned && t.c.inflight == s.c.inflight && t.c.left == s.c.left
    else if MayReconnect(cfg, s)
    then t.c.h.abandoned == s.c.h.abandoned + s.c.inflight && t.c.inflight == 0 && t.c.left == s.c.left
    else t.c.h.abandoned == s.c.h.abandoned + s.c.inflight + s.c.left && t.c.inflight == 0 && t.c.left == 0
  }

  lemma FailLoses(cfg: Config, s: Local)
    ensures var t := Fail(cfg, s);
            Lost(cfg, s, t) && t.c.conn == Idle && t.c.streams == {} && t.phase == s.phase
  {
  }

  /** An error disconnects and gives up twice, and the second time there is nothing left to give up. */
  lemma ErrorLoses(cfg: Config, s: Local)
    ensures var t := ConnectionError(cfg, s);
            && Lost(cfg, s, t) && t.c.streams == {}
            && t.c.conn == if MayReconnect(cfg, s) then Connecting else Idle
  {
    hide Fail;
    FailLoses(cfg, s);
    FailLoses(cfg, Fail(cfg, s));
  }

  lemma TimeoutLoses(cfg: Config, s: Local)
    ensures var t := Timeout(cfg, s);
            if MayReconnect(cfg, s) then t == s else Lost(cfg, s, t) && t.c.conn == Idle && t.c.streams == {}
  {
  }

  // ---------------------------------------------------------------------------------------
  // Whole runs
  // ---------------------------------------------------------------------------------------

  ghost function StepTally(cfg: Config, w: Worker, st: Step): Tally
    requires StepEnabled(cfg, w, st)
  {
    if st.ClientStep? then TallyOf(cfg, LocalOf(w, st.i), st.e) else NOTHING
  }

  ghost function RunTally(cfg: Config, w: Worker, steps: seq<Step>): Tally
    requires ValidRun(cfg, w, steps)
    decreases |steps|
  {
    if steps == [] then NOTHING
    else Plus(StepTally(cfg, w, steps[0]), RunTally(cfg, WorkerStep(cfg, w, steps[0]), steps[1..]))
  }

  /** The counters of the worker are those of the tally, and of what its clients gave up. */
  ghost predicate Reports(w: Worker, t: Tally) {
    var given := Sum(AbandonedOf, w.clients);
    && w.stats.statusSuccess == t.good
    && w.stats.success == t.good + t.bad
    && w.stats.failed == given + t.bad + t.reset
    && w.stats.error == given + t.reset
    && w.stats.done == t.good + t.bad + t.reset
    && w.stats.timedout == t.timedout
  }

  lemma StepReports(cfg: Config, w: Worker, st: Step, t: Tally)
    requires SoundWorker(cfg, w) && StepEnabled(cfg, w, st) && Reports(w, t)
    ensures Reports(WorkerStep(cfg, w, st), Plus(t, StepTally(cfg, w, st)))
  {
    hide ClientOp;
    hide Enabled;
    if st.ClientStep? {
      var s := LocalOf(w, st.i);
      assert Sound(cfg, s.c);
      EventMoves(cfg, s, st.e);
      SumUpdate(AbandonedOf, w.clients, st.i, ClientOp(cfg, s, st.e).c);
      hide TallyOf;
    }
  }

  lemma {:induction false} RunReports(cfg: Config, w: Worker, steps: seq<Step>, t: Tally)
    requires SoundWorker(cfg, w) && ValidRun(cfg, w, steps) && Reports(w, t)
    ensures Reports(Run(cfg, w, steps), Plus(t, RunTally(cfg, w, steps)))
    decreases |steps|
  {
    hide SoundWorker;
    hide Reports;
    hide WorkerStep;
    hide StepTally;
    hide StepEnabled;
    if steps == [] {
      PlusNothing(t);
    } else {
      StepReports(cfg, w, steps[0], t);
      StepSound(cfg, w, steps[0]);
      var d, rest := StepTally(cfg, w, steps[0]), RunTally(cfg, WorkerStep(cfg, w, steps[0]), steps[1..]);
      RunReports(cfg, WorkerStep(cfg, w, steps[0]), steps[1..], Plus(t, d));
      assert Plus(Plus(t, d), rest) == Plus(t, Plus(d, rest));
    }
  }

  /** For every run from the start: the good answers are the successes by status, all answers are the successes, and
      failures and errors are what was given up, together with the bad answers and the streams without one. */
  lemma OutcomesAreCounted(cfg: Config, todos: seq<nat>, steps: seq<Step>)
    requires ValidRun(cfg, NewWorker(cfg, todos), steps)
    ensures Reports(Run(cfg, NewWorker(cfg, todos), steps), RunTally(cfg, NewWorker(cfg, todos), steps))
  {
    hide RunTally;
    hide ValidRun;
    hide Run;
    var w := NewWorker(cfg, todos);
    NewWorkerSound(cfg, todos);
    assert forall i :: 0 <= i < |w.clients| ==> w.clients[i] == NewClient(if cfg.timingBased then 0 else todos[i]);
    SumOfNew(AbandonedOf, w.clients);
    RunReports(cfg, w, steps, NOTHING);
    var t := RunTally(cfg, w, steps);
    PlusNothing(t);
  }
}
