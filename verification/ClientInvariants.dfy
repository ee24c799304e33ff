/** What every event of every client keeps, in every mode and phase, whatever the configuration. */
module ClientInvariants {

  import opened Basics
  import opened ClientLifecycle

  /** Streams only exist on a connection, at most half of the configured maximum (rounded up) are open,
      and every request that was started is done, open, or was discarded with its connection. */
  ghost predicate Sound(cfg: Config, c: Client) {
    && c.eligible <= c.streams
    && (forall id :: id in c.streams ==> id < c.nextId)
    && (c.conn != Connected ==> c.streams == {})
    && 2 * |c.streams| <= cfg.maxStreams + 1
    && c.started == c.done + |c.eligible| + c.h.discarded
  }

  /** Requests that have an outcome: finished, or given up in bulk. */
  function SettledOf(c: Client): nat { c.done + c.h.abandoned }

  /** The worker's counters move with the client's. */
  ghost predicate InStep(s: Local, t: Local) {
    && t.stats.todo == s.stats.todo && t.c.todo == s.c.todo
    && t.stats.started - s.stats.started == t.c.started - s.c.started
    && t.stats.done - s.stats.done == t.c.done - s.c.done
    && t.stats.statusSuccess + t.stats.failed + SettledOf(s.c) == s.stats.statusSuccess + s.stats.failed + SettledOf(t.c)
    && t.stats.error - s.stats.error <= t.stats.failed - s.stats.failed
    && s.phase.Rank() <= t.phase.Rank()
  }

  lemma FailureSound(cfg: Config, s: Local, o: Outcome)
    requires Sound(cfg, s.c)
    ensures Sound(cfg, ProcessRequestFailure(cfg, s, o).c) && InStep(s, ProcessRequestFailure(cfg, s, o))
  {
  }

  lemma OpenSound(cfg: Config, phase: Phase, c: Client)
    requires Sound(cfg, c) && c.conn == Connected && 2 * |c.streams| < cfg.maxStreams
    ensures var d := OpenStream(phase, c);
            && d.eligible <= d.streams && (forall id :: id in d.streams ==> id < d.nextId)
            && 2 * |d.streams| <= cfg.maxStreams + 1
            && |d.eligible| == |c.eligible| + if Counting(phase) then 1 else 0
  {
    assert c.nextId !in c.streams && c.nextId !in c.eligible;
  }

  lemma SubmitSound(cfg: Config, s: Local, o: Outcome)
    requires Sound(cfg, s.c) && s.c.conn == Connected
    ensures var r := SubmitRequest(cfg, s, o); Sound(cfg, r.after.c) && InStep(s, r.after) && r.after.c.conn == Connected
  {
    hide ProcessRequestFailure;
    if o == Opened {
      OpenedSound(cfg, s);
    } else {
      FailureSound(cfg, s, o);
      FailureKeepsConnection(cfg, s, o);
    }
  }

  lemma FailureKeepsConnection(cfg: Config, s: Local, o: Outcome)
    ensures ProcessRequestFailure(cfg, s, o).c.conn == s.c.conn
  {
  }

  lemma OpenedSound(cfg: Config, s: Local)
    requires Sound(cfg, s.c) && s.c.conn == Connected
    ensures var r := SubmitRequest(cfg, s, Opened);
            Sound(cfg, r.after.c) && InStep(s, r.after) && r.after.c.conn == Connected
  {
    if 2 * |s.c.streams| < cfg.maxStreams {
      OpenSound(cfg, s.phase, s.c);
      OpenFields(s.phase, s.c);
      hide OpenStream;
    }
  }

  lemma OpenFields(phase: Phase, c: Client)
    ensures var d := OpenStream(phase, c);
            && d.conn == c.conn && d.todo == c.todo && d.started == c.started && d.done == c.done
            && d.h.abandoned == c.h.abandoned && d.h.discarded == c.h.discarded
  {
  }

  lemma {:induction false} LoopSound(cfg: Config, s: Local, n: nat, os: seq<Outcome>, i: nat, paced: bool)
    requires Sound(cfg, s.c) && s.c.conn == Connected
    ensures var t := SubmitLoop(cfg, s, n, os, i, paced); Sound(cfg, t.c) && InStep(s, t)
    decreases n
  {
    hide SubmitRequest;
    if n > 0 {
      SubmitSound(cfg, s, Answer(os, i));
      var r := SubmitRequest(cfg, s, Answer(os, i));
      if r.ok {
        LoopSound(cfg, if paced then TakePending(r.after) else r.after, n - 1, os, i + 1, paced);
      }
    }
  }

  lemma MadeSound(cfg: Config, s: Local, now: real, os: seq<Outcome>)
    requires Sound(cfg, s.c) && s.c.conn == Connecting
    ensures Sound(cfg, ConnectionMade(cfg, s, now, os).c) && InStep(s, ConnectionMade(cfg, s, now, os))
  {
    hide SubmitRequest;
    hide SubmitLoop;
    var c1 := s.c.(conn := Connected, nextId := 1, h := s.c.h.(sent := 0));
    var n := if cfg.timingBased then Max(s.c.left, cfg.maxStreams) else Min(s.c.left, cfg.maxStreams);
    LoopSound(cfg, s.(c := c1), n, os, 0, false);
    var c2 := c1.(rpsStart := now, rpsInflight := c1.rpsInflight + 1,
                  h := c1.h.(carried := c1.rpsPending, granted := 0, connectedAt := now, lastTick := now));
    SubmitSound(cfg, s.(c := c2), Answer(os, 0));
  }

  lemma EraseSound(c: Client, id: nat, counted: bool)
    requires c.eligible <= c.streams
    ensures var d := EraseStream(c, id, counted);
            && d.eligible <= d.streams <= c.streams && |d.streams| <= |c.streams|
            && |d.eligible| == |c.eligible| - if id in c.eligible then 1 else 0
  {
    if id !in c.streams {
      assert c.streams - {id} == c.streams;
    }
    if id !in c.eligible {
      assert c.eligible - {id} == c.eligible;
    }
  }

  lemma GoneSound(cfg: Config, s: Local, id: nat, success: bool, statusOk: bool)
    requires Sound(cfg, s.c) && s.c.conn == Connected
    ensures var t := StreamGone(cfg, s, id, success, statusOk); Sound(cfg, t.c) && InStep(s, t) && t.c.conn == Connected
  {
    hide EraseStream;
    ErasedFields(s.c, id, false);
    EraseSound(s.c, id, false);
    if Counting(s.phase) && id in s.c.streams {
      var s1 := s.(c := LessInflight(cfg, s.c));
      var s2 := if id in s.c.eligible then CountDone(s1, success, statusOk) else s1;
      ErasedFields(s2.c, id, true);
      EraseSound(s2.c, id, true);
    }
  }

  lemma ErasedFields(c: Client, id: nat, counted: bool)
    ensures var d := EraseStream(c, id, counted);
            && d.conn == c.conn && d.nextId == c.nextId && d.todo == c.todo && d.started == c.started && d.done == c.done
            && d.h.abandoned == c.h.abandoned
            && d.h.discarded == c.h.discarded + if id in c.eligible && !counted then 1 else 0
  {
  }

  lemma CloseSound(cfg: Config, s: Local, id: nat, success: bool, statusOk: bool, final: bool, o: Outcome)
    requires Sound(cfg, s.c) && s.c.conn == Connected
    ensures var t := OnStreamClose(cfg, s, id, success, statusOk, final, o); Sound(cfg, t.c) && InStep(s, t)
  {
    hide SubmitRequest;
    hide StreamGone;
    GoneSound(cfg, s, id, success, statusOk);
    SubmitSound(cfg, StreamGone(cfg, s, id, success, statusOk), o);
  }

  lemma TickSound(cfg: Config, s: Local, now: real, os: seq<Outcome>)
    requires Sound(cfg, s.c) && cfg.rps > 0.0
    ensures Sound(cfg, OnRpsTimer(cfg, s, now, os).c) && InStep(s, OnRpsTimer(cfg, s, now, os))
  {
    hide SubmitLoop;
    if s.c.conn == Connected && now - s.c.rpsStart >= 0.0 {
      var s1 := s.(c := Grant(cfg, s.c, now));
      var room := WrapSub(cfg.maxStreams, |s.c.streams|);
      LoopSound(cfg, s1, Min(Max(room, s.c.left), s1.c.rpsPending), os, 0, true);
      LoopSound(cfg, s1, Min(Min(room, s.c.left), s1.c.rpsPending), os, 0, true);
    }
  }

  lemma DropSound(cfg: Config, s: Local)
    requires Sound(cfg, s.c)
    ensures Sound(cfg, Disconnect(s).c) && InStep(s, Disconnect(s))
  {
  }

  lemma AbandonSound(cfg: Config, s: Local)
    requires Sound(cfg, s.c)
    ensures var t := ProcessAbandonedStreams(cfg, s); Sound(cfg, t.c) && InStep(s, t) && t.c.conn == s.c.conn
  {
  }

  lemma LossSound(cfg: Config, s: Local)
    requires Sound(cfg, s.c)
    ensures Sound(cfg, Fail(cfg, s).c) && InStep(s, Fail(cfg, s)) && Fail(cfg, s).c.streams == {}
    ensures Sound(cfg, ConnectionError(cfg, s).c) && InStep(s, ConnectionError(cfg, s))
    ensures Sound(cfg, SwitchConnection(s).c) && InStep(s, SwitchConnection(s))
  {
    FailSound(cfg, s);
    FailSound(cfg, Fail(cfg, s));
    DropSound(cfg, s);
  }

  lemma FailSound(cfg: Config, s: Local)
    requires Sound(cfg, s.c)
    ensures Sound(cfg, Fail(cfg, s).c) && InStep(s, Fail(cfg, s))
    ensures Fail(cfg, s).c.streams == {} && Fail(cfg, s).c.conn == Idle
  {
    DropSound(cfg, s);
    AbandonSound(cfg, Disconnect(s));
  }

  lemma TimeoutSound(cfg: Config, s: Local)
    requires Sound(cfg, s.c)
    ensures Sound(cfg, Timeout(cfg, s).c) && InStep(s, Timeout(cfg, s))
  {
    hide ProcessAbandonedStreams;
    var s1 := if s.phase == MainDuration
              then s.(stats := s.stats.(timedout := s.stats.timedout + s.c.inflight)) else s;
    AbandonSound(cfg, s1);
    DropSound(cfg, ProcessAbandonedStreams(cfg, s1));
  }

  /** Every event of a client keeps it sound. */
  lemma EventSound(cfg: Config, s: Local, e: Event)
    requires Sound(cfg, s.c) && Enabled(cfg, s, e)
    ensures Sound(cfg, ClientOp(cfg, s, e).c) && InStep(s, ClientOp(cfg, s, e))
  {
    hide ConnectionMade;
    hide OnStreamClose;
    hide OnRpsTimer;
    hide Fail;
    hide ConnectionError;
    hide SwitchConnection;
    hide Timeout;
    match e
    case ConnectEvent =>
    case MadeEvent(now, os) => MadeSound(cfg, s, now, os);
    case CloseEvent(id, success, statusOk, final, o) => CloseSound(cfg, s, id, success, statusOk, final, o);
    case TickEvent(now, os) => TickSound(cfg, s, now, os);
    case TimeoutEvent => TimeoutSound(cfg, s);
    case ErrorEvent => LossSound(cfg, s);
    case FailEvent => LossSound(cfg, s);
    case SwitchEvent => LossSound(cfg, s);
  }

  /** A worker whose clients are sound, whose totals are the sums over its clients, and whose timers
      run only in the phases they end. */
  ghost predicate SoundWorker(cfg: Config, w: Worker) {
    && (forall i :: 0 <= i < |w.clients| ==> Sound(cfg, w.clients[i]))
    && w.stats.todo == Sum(TodoOf, w.clients)
    && w.stats.started == Sum(StartedOf, w.clients)
    && w.stats.done == Sum(DoneOf, w.clients)
    && w.stats.statusSuccess + w.stats.failed == Sum(SettledOf, w.clients)
    && w.stats.error <= w.stats.failed
    && (w.warmupArmed ==> w.phase == WarmUp)
    && (w.durationArmed ==> w.phase == MainDuration || w.phase == GracefulShutdown)
  }

  lemma {:induction false} SumOfNew(f: Client -> nat, cs: seq<Client>)
    requires forall i :: 0 <= i < |cs| ==> f(cs[i]) == 0
    ensures Sum(f, cs) == 0
  {
    if cs != [] {
      SumOfNew(f, cs[1..]);
    }
  }

  lemma NewWorkerSound(cfg: Config, todos: seq<nat>)
    ensures SoundWorker(cfg, NewWorker(cfg, todos))
  {
    var cs := NewWorker(cfg, todos).clients;
    assert forall i :: 0 <= i < |cs| ==> cs[i] == NewClient(if cfg.timingBased then 0 else todos[i]);
    SumOfNew(StartedOf, cs);
    SumOfNew(DoneOf, cs);
    SumOfNew(SettledOf, cs);
  }

  /** The phase only moves forward, and soundness is kept, with every step of the worker. */
  lemma StepSound(cfg: Config, w: Worker, st: Step)
    requires SoundWorker(cfg, w) && StepEnabled(cfg, w, st)
    ensures SoundWorker(cfg, WorkerStep(cfg, w, st))
    ensures w.phase.Rank() <= WorkerStep(cfg, w, st).phase.Rank()
    ensures |WorkerStep(cfg, w, st).clients| == |w.clients|
  {
    hide ClientOp;
    match st
    case ClientStep(i, e) =>
      var s := ClientOp(cfg, LocalOf(w, i), e);
      EventSound(cfg, LocalOf(w, i), e);
      SumUpdate(TodoOf, w.clients, i, s.c);
      SumUpdate(StartedOf, w.clients, i, s.c);
      SumUpdate(DoneOf, w.clients, i, s.c);
      SumUpdate(SettledOf, w.clients, i, s.c);
      PhaseChange(cfg, LocalOf(w, i), e);
    case _ =>
  }

  /** The only phase change a client makes is to start the warm-up. */
  lemma PhaseChange(cfg: Config, s: Local, e: Event)
    requires Enabled(cfg, s, e)
    ensures ClientOp(cfg, s, e).phase == s.phase || (s.phase == InitialIdle && ClientOp(cfg, s, e).phase == WarmUp)
  {
    hide SubmitLoop;
    hide SubmitRequest;
    match e
    case MadeEvent(now, os) =>
      var c1 := s.c.(conn := Connected, nextId := 1, h := s.c.h.(sent := 0));
      var n := if cfg.timingBased then Max(s.c.left, cfg.maxStreams) else Min(s.c.left, cfg.maxStreams);
      LoopPhase(cfg, s.(c := c1), n, os, 0, false);
      SubmitPhase(cfg);
    case CloseEvent(_, _, _, _, _) => SubmitPhase(cfg);
    case TickEvent(now, os) =>
      if now - s.c.rpsStart >= 0.0 {
        var s1 := s.(c := Grant(cfg, s.c, now));
        var room := WrapSub(cfg.maxStreams, |s.c.streams|);
        var n := if cfg.timingBased then Max(room, s.c.left) else Min(room, s.c.left);
        LoopPhase(cfg, s1, Min(n, s1.c.rpsPending), os, 0, true);
      }
    case _ =>
  }

  lemma SubmitPhase(cfg: Config)
    ensures forall s, o :: SubmitRequest(cfg, s, o).after.phase == s.phase
  {
  }

  lemma {:induction false} LoopPhase(cfg: Config, s: Local, n: nat, os: seq<Outcome>, i: nat, paced: bool)
    ensures SubmitLoop(cfg, s, n, os, i, paced).phase == s.phase
    decreases n
  {
    hide SubmitRequest;
    SubmitPhase(cfg);
    if n > 0 {
      var r := SubmitRequest(cfg, s, Answer(os, i));
      if r.ok {
        LoopPhase(cfg, if paced then TakePending(r.after) else r.after, n - 1, os, i + 1, paced);
      }
    }
  }

  lemma {:induction false} RunSound(cfg: Config, w: Worker, steps: seq<Step>)
    requires SoundWorker(cfg, w) && ValidRun(cfg, w, steps)
    ensures SoundWorker(cfg, Run(cfg, w, steps))
    ensures w.phase.Rank() <= Run(cfg, w, steps).phase.Rank()
    ensures |Run(cfg, w, steps).clients| == |w.clients|
    decreases |steps|
  {
    hide SoundWorker;
    hide WorkerStep;
    if steps != [] {
      StepSound(cfg, w, steps[0]);
      RunSound(cfg, WorkerStep(cfg, w, steps[0]), steps[1..]);
    }
  }

  /** The number of requests to do is fixed. */
  lemma {:induction false} RunKeepsTodo(cfg: Config, w: Worker, steps: seq<Step>)
    requires SoundWorker(cfg, w) && ValidRun(cfg, w, steps)
    ensures Run(cfg, w, steps).stats.todo == w.stats.todo
    decreases |steps|
  {
    if steps != [] {
      hide ClientOp;
      StepSound(cfg, w, steps[0]);
      if steps[0].ClientStep? {
        EventSound(cfg, LocalOf(w, steps[0].i), steps[0].e);
      }
      RunKeepsTodo(cfg, WorkerStep(cfg, w, steps[0]), steps[1..]);
    }
  }
}
