/** The final report of a timed test: when exactly its subtraction wraps, told from the events of the run. */
module TimedReport {

  import opened Basics
  import opened ClientLifecycle
  import opened ClientInvariants
  import opened TimedMode

  // ---------------------------------------------------------------------------------------
  // Which event gives requests up
  // ---------------------------------------------------------------------------------------

  /** Of `n` submissions by a client with `open` streams, one that there is room for is refused. */
  ghost predicate RefusesOne(cfg: Config, open: nat, n: nat, os: seq<Outcome>, i: nat) {
    exists j :: RefusedAt(cfg, open, n, os, i, j)
  }

  predicate RefusedAt(cfg: Config, open: nat, n: nat, os: seq<Outcome>, i: nat, j: int) {
    0 <= j < n && 2 * (open + j) < cfg.maxStreams && Answer(os, i + j) != Opened
  }

  /** The requests a tick may submit. */
  function TickLimit(cfg: Config, c: Client, now: real): nat
    requires cfg.rps > 0.0 && now >= c.rpsStart
  {
    Min(Max(WrapSub(cfg.maxStreams, |c.streams|), c.left), Grant(cfg, c, now).rpsPending)
  }

  /** In the main phase of a timed test: the connection is lost with requests in flight, or without a
      reconnection; or a submission is refused that there was room for. */
  ghost predicate GivesUp(cfg: Config, s: Local, e: Event) {
    && s.phase == MainDuration
    && match e
       case ErrorEvent => s.c.inflight > 0 || (s.c.left > 0 && !cfg.retry)
       case FailEvent => s.c.inflight > 0 || (s.c.left > 0 && !cfg.retry)
       case TimeoutEvent => (s.c.inflight > 0 && s.c.left == 0) || (s.c.left > 0 && !cfg.retry)
       case MadeEvent(_, os) =>
         s.c.left > 0 && if cfg.rps > 0.0 then Answer(os, 0) != Opened
                         else RefusesOne(cfg, 0, Max(s.c.left, cfg.maxStreams), os, 0)
       case CloseEvent(id, _, _, final, o) =>
         && s.c.left > 0 && !final && (cfg.rps == 0.0 || s.c.rpsPending > 0)
         && 2 * |s.c.streams - {id}| < cfg.maxStreams && o != Opened
       case TickEvent(now, os) =>
         && cfg.rps > 0.0 && s.c.conn == Connected && s.c.left > 0 && now >= s.c.rpsStart
         && |s.c.streams| < cfg.maxStreams
         && RefusesOne(cfg, |s.c.streams|, TickLimit(cfg, s.c, now), os, 0)
       case _ => false
  }

  lemma SubmitGivesUpIff(cfg: Config, s: Local, o: Outcome)
    requires cfg.timingBased && s.phase == MainDuration && Sound(cfg, s.c)
    ensures var r := SubmitRequest(cfg, s, o);
            && r.after.c.h.abandoned >= s.c.h.abandoned
            && (r.after.c.h.abandoned > s.c.h.abandoned <==>
                  s.c.left > 0 && 2 * |s.c.streams| < cfg.maxStreams && o != Opened)
            && (r.ok <==> 2 * |s.c.streams| < cfg.maxStreams && o == Opened)
            && (r.ok ==> |r.after.c.streams| == |s.c.streams| + 1 && r.after.c.left == s.c.left)
            && r.after.phase == s.phase
  {
    if 2 * |s.c.streams| < cfg.maxStreams {
      assert s.c.nextId !in s.c.streams;
    }
  }

  lemma {:induction false} LoopGivesUpIff(cfg: Config, s: Local, n: nat, os: seq<Outcome>, i: nat, paced: bool)
    requires cfg.timingBased && s.phase == MainDuration && Sound(cfg, s.c) && s.c.conn == Connected && s.c.left > 0
    ensures var t := SubmitLoop(cfg, s, n, os, i, paced);
            && t.c.h.abandoned >= s.c.h.abandoned
            && (t.c.h.abandoned > s.c.h.abandoned <==> RefusesOne(cfg, |s.c.streams|, n, os, i))
    decreases n
  {
    hide SubmitRequest;
    hide Sound;
    var k := |s.c.streams|;
    if n == 0 {
      assert !RefusesOne(cfg, k, n, os, i);
    } else {
      SubmitGivesUpIff(cfg, s, Answer(os, i));
      SubmitSound(cfg, s, Answer(os, i));
      SubmitKeepsAbandoned(cfg, s, Answer(os, i));
      RefusesUnfold(cfg, k, n, os, i);
      var r := SubmitRequest(cfg, s, Answer(os, i));
      if r.ok {
        var next := if paced then TakePending(r.after) else r.after;
        PendingSound(cfg, r.after);
        LoopGivesUpIff(cfg, next, n - 1, os, i + 1, paced);
      }
    }
  }

  lemma PendingSound(cfg: Config, s: Local)
    requires Sound(cfg, s.c)
    ensures Sound(cfg, TakePending(s).c)
  {
  }

  lemma SubmitKeepsAbandoned(cfg: Config, s: Local, o: Outcome)
    requires s.phase == MainDuration
    ensures SubmitRequest(cfg, s, o).ok ==> SubmitRequest(cfg, s, o).after.c.h.abandoned == s.c.h.abandoned
  {
  }

  lemma RefusesUnfold(cfg: Config, open: nat, n: nat, os: seq<Outcome>, i: nat)
    requires n > 0
    ensures RefusesOne(cfg, open, n, os, i) <==>
              2 * open < cfg.maxStreams && (Answer(os, i) != Opened || RefusesOne(cfg, open + 1, n - 1, os, i + 1))
  {
    if RefusesOne(cfg, open, n, os, i) {
      var j :| RefusedAt(cfg, open, n, os, i, j);
      if j > 0 {
        assert RefusedAt(cfg, open + 1, n - 1, os, i + 1, j - 1);
      }
    }
    if 2 * open < cfg.maxStreams && Answer(os, i) != Opened {
      assert RefusedAt(cfg, open, n, os, i, 0);
    }
    if RefusesOne(cfg, open + 1, n - 1, os, i + 1) {
      var j :| RefusedAt(cfg, open + 1, n - 1, os, i + 1, j);
      assert RefusedAt(cfg, open, n, os, i, j + 1);
    }
  }

  /** An event raises the number of requests given up in bulk if and only if it is one of those. */
  lemma GivesUpIff(cfg: Config, s: Local, e: Event)
    requires TimedConfig(cfg) && Sound(cfg, s.c) && Enabled(cfg, s, e)
    ensures var t := ClientOp(cfg, s, e);
            && t.c.h.abandoned >= s.c.h.abandoned
            && (t.c.h.abandoned > s.c.h.abandoned <==> GivesUp(cfg, s, e))
  {
    hide SubmitLoop;
    hide SubmitRequest;
    hide RefusesOne;
    if s.phase != MainDuration {
      OnlyInMain(cfg, s, e);
    } else {
      match e
      case MadeEvent(now, os) => MadeGivesUpIff(cfg, s, now, os);
      case CloseEvent(id, success, statusOk, final, o) => CloseGivesUpIff(cfg, s, id, success, statusOk, final, o);
      case TickEvent(now, os) => TickGivesUpIff(cfg, s, now, os);
      case _ =>
    }
  }

  lemma OnlyInMain(cfg: Config, s: Local, e: Event)
    requires Enabled(cfg, s, e) && s.phase != MainDuration
    ensures ClientOp(cfg, s, e).c.h.abandoned == s.c.h.abandoned
  {
    hide SubmitLoop;
    hide SubmitRequest;
    SubmitOutsideMain(cfg);
    match e
    case MadeEvent(now, os) =>
      var c1 := s.c.(conn := Connected, nextId := 1, h := s.c.h.(sent := 0));
      var n := if cfg.timingBased then Max(s.c.left, cfg.maxStreams) else Min(s.c.left, cfg.maxStreams);
      LoopOutsideMain(cfg, s.(c := c1), n, os, 0, false);
    case TickEvent(now, os) =>
      if now - s.c.rpsStart >= 0.0 {
        var s1 := s.(c := Grant(cfg, s.c, now));
        var room := WrapSub(cfg.maxStreams, |s.c.streams|);
        var n := if cfg.timingBased then Max(room, s.c.left) else Min(room, s.c.left);
        LoopOutsideMain(cfg, s1, Min(n, s1.c.rpsPending), os, 0, true);
      }
    case _ =>
  }

  lemma SubmitOutsideMain(cfg: Config)
    ensures forall s: Local, o: Outcome :: s.phase != MainDuration ==>
              SubmitRequest(cfg, s, o).after.c.h.abandoned == s.c.h.abandoned
              && SubmitRequest(cfg, s, o).after.phase == s.phase
  {
  }

  lemma {:induction false} LoopOutsideMain(cfg: Config, s: Local, n: nat, os: seq<Outcome>, i: nat, paced: bool)
    requires s.phase != MainDuration
    ensures SubmitLoop(cfg, s, n, os, i, paced).c.h.abandoned == s.c.h.abandoned
    decreases n
  {
    hide SubmitRequest;
    SubmitOutsideMain(cfg);
    if n > 0 {
      var r := SubmitRequest(cfg, s, Answer(os, i));
      if r.ok {
        LoopOutsideMain(cfg, if paced then TakePending(r.after) else r.after, n - 1, os, i + 1, paced);
      }
    }
  }

  lemma MadeGivesUpIff(cfg: Config, s: Local, now: real, os: seq<Outcome>)
    requires TimedConfig(cfg) && Sound(cfg, s.c) && s.phase == MainDuration && s.c.conn == Connecting
    ensures var t := ConnectionMade(cfg, s, now, os);
            && t.c.h.abandoned >= s.c.h.abandoned
            && (t.c.h.abandoned > s.c.h.abandoned <==> GivesUp(cfg, s, MadeEvent(now, os)))
  {
    hide SubmitLoop;
    hide SubmitRequest;
    hide RefusesOne;
    var c1 := s.c.(conn := Connected, nextId := 1, h := s.c.h.(sent := 0));
    var n := Max(s.c.left, cfg.maxStreams);
    if cfg.rps > 0.0 {
      var c2 := c1.(rpsStart := now, rpsInflight := c1.rpsInflight + 1,
                    h := c1.h.(carried := c1.rpsPending, granted := 0, connectedAt := now, lastTick := now));
      SubmitGivesUpIff(cfg, s.(c := c2), Answer(os, 0));
    } else if s.c.left > 0 {
      LoopGivesUpIff(cfg, s.(c := c1), n, os, 0, false);
    } else {
      NothingLeft(cfg, s.(c := c1), n, os, 0, false);
    }
  }

  lemma {:induction false} NothingLeft(cfg: Config, s: Local, n: nat, os: seq<Outcome>, i: nat, paced: bool)
    requires cfg.timingBased && s.phase == MainDuration && s.c.left == 0
    ensures SubmitLoop(cfg, s, n, os, i, paced).c.h.abandoned == s.c.h.abandoned
    decreases n
  {
    hide SubmitRequest;
    if n > 0 {
      NothingLeftOnce(cfg, s, Answer(os, i));
      var r := SubmitRequest(cfg, s, Answer(os, i));
      if r.ok {
        NothingLeft(cfg, if paced then TakePending(r.after) else r.after, n - 1, os, i + 1, paced);
      }
    }
  }

  lemma NothingLeftOnce(cfg: Config, s: Local, o: Outcome)
    requires cfg.timingBased && s.phase == MainDuration && s.c.left == 0
    ensures var t := SubmitRequest(cfg, s, o).after;
            t.c.h.abandoned == s.c.h.abandoned && t.phase == s.phase && t.c.left == 0
  {
  }

  lemma CloseGivesUpIff(cfg: Config, s: Local, id: nat, success: bool, statusOk: bool, final: bool, o: Outcome)
    requires TimedConfig(cfg) && Sound(cfg, s.c) && s.phase == MainDuration
    requires s.c.conn == Connected && id in s.c.streams
    ensures var t := OnStreamClose(cfg, s, id, success, statusOk, final, o);
            && t.c.h.abandoned >= s.c.h.abandoned
            && (t.c.h.abandoned > s.c.h.abandoned <==>
                  GivesUp(cfg, s, CloseEvent(id, success, statusOk, final, o)))
  {
    hide SubmitRequest;
    GoneFields(cfg, s, id, success, statusOk);
    GoneSound(cfg, s, id, success, statusOk);
    hide StreamGone;
    SubmitGivesUpIff(cfg, StreamGone(cfg, s, id, success, statusOk), o);
  }

  lemma GoneFields(cfg: Config, s: Local, id: nat, success: bool, statusOk: bool)
    requires s.phase == MainDuration && id in s.c.streams
    ensures var t := StreamGone(cfg, s, id, success, statusOk);
            && t.c.h.abandoned == s.c.h.abandoned && t.c.left == s.c.left && t.c.rpsPending == s.c.rpsPending
            && t.c.streams == s.c.streams - {id} && t.phase == s.phase
  {
  }

  lemma TickGivesUpIff(cfg: Config, s: Local, now: real, os: seq<Outcome>)
    requires TimedConfig(cfg) && Sound(cfg, s.c) && s.phase == MainDuration && cfg.rps > 0.0
    ensures var t := OnRpsTimer(cfg, s, now, os);
            && t.c.h.abandoned >= s.c.h.abandoned
            && (t.c.h.abandoned > s.c.h.abandoned <==> GivesUp(cfg, s, TickEvent(now, os)))
  {
    hide SubmitLoop;
    if s.c.conn == Connected && s.c.left > 0 && now - s.c.rpsStart >= 0.0 {
      var s1 := s.(c := Grant(cfg, s.c, now));
      GrantFields(cfg, s.c, now);
      hide Grant;
      LoopGivesUpIff(cfg, s1, TickLimit(cfg, s.c, now), os, 0, true);
      NoneOfNone(cfg, |s.c.streams|, os);
      hide RefusesOne;
    }
  }

  lemma NoneOfNone(cfg: Config, open: nat, os: seq<Outcome>)
    ensures !RefusesOne(cfg, open, 0, os, 0)
  {
  }

  lemma GrantFields(cfg: Config, c: Client, now: real)
    requires cfg.rps > 0.0 && now >= c.rpsStart && Sound(cfg, c)
    ensures var d := Grant(cfg, c, now);
            && Sound(cfg, d) && d.conn == c.conn && d.left == c.left && d.streams == c.streams
            && d.h.abandoned == c.h.abandoned
  {
  }

  // ---------------------------------------------------------------------------------------
  // Runs
  // ---------------------------------------------------------------------------------------

  ghost predicate StepGivesUp(cfg: Config, w: Worker, st: Step) {
    st.ClientStep? && st.i < |w.clients| && GivesUp(cfg, LocalOf(w, st.i), st.e)
  }

  /** Some step of the run gives requests up. */
  ghost predicate RunGivesUp(cfg: Config, w: Worker, steps: seq<Step>)
    requires ValidRun(cfg, w, steps)
    decreases |steps|
  {
    steps != [] &&
    (StepGivesUp(cfg, w, steps[0]) || RunGivesUp(cfg, WorkerStep(cfg, w, steps[0]), steps[1..]))
  }

  lemma StepAbandonsIff(cfg: Config, w: Worker, st: Step)
    requires TimedConfig(cfg) && SoundWorker(cfg, w) && StepEnabled(cfg, w, st)
    ensures var v := WorkerStep(cfg, w, st);
            && Sum(AbandonedOf, v.clients) >= Sum(AbandonedOf, w.clients)
            && (Sum(AbandonedOf, v.clients) > Sum(AbandonedOf, w.clients) <==> StepGivesUp(cfg, w, st))
  {
    hide ClientOp;
    hide GivesUp;
    if st.ClientStep? {
      GivesUpIff(cfg, LocalOf(w, st.i), st.e);
      SumUpdate(AbandonedOf, w.clients, st.i, ClientOp(cfg, LocalOf(w, st.i), st.e).c);
    }
  }

  lemma {:induction false} RunAbandonsIff(cfg: Config, w: Worker, steps: seq<Step>)
    requires TimedConfig(cfg) && SoundWorker(cfg, w) && ValidRun(cfg, w, steps)
    ensures var v := Run(cfg, w, steps);
            && Sum(AbandonedOf, v.clients) >= Sum(AbandonedOf, w.clients)
            && (Sum(AbandonedOf, v.clients) > Sum(AbandonedOf, w.clients) <==> RunGivesUp(cfg, w, steps))
    decreases |steps|
  {
    if steps != [] {
      hide WorkerStep;
      hide SoundWorker;
      hide StepGivesUp;
      StepSound(cfg, w, steps[0]);
      StepAbandonsIff(cfg, w, steps[0]);
      RunAbandonsIff(cfg, WorkerStep(cfg, w, steps[0]), steps[1..]);
    }
  }

  lemma {:induction false} SumOfTwo(cs: seq<Client>)
    ensures Sum(SettledOf, cs) == Sum(DoneOf, cs) + Sum(AbandonedOf, cs)
  {
    if cs != [] {
      SumOfTwo(cs[1..]);
    }
  }

  /** When a client of a timed test is freed, its finished requests become its share.  With all clients freed,
      the final subtraction of main wraps if and only if some step of the run gave requests up. */
  lemma TimedReportWrapsIff(cfg: Config, todos: seq<nat>, steps: seq<Step>)
    requires TimedConfig(cfg) && ValidRun(cfg, NewWorker(cfg, todos), steps)
    ensures var w := Run(cfg, NewWorker(cfg, todos), steps);
            var todo := w.stats.todo + Sum(DoneOf, w.clients);
            todo < w.stats.statusSuccess + w.stats.failed <==> RunGivesUp(cfg, NewWorker(cfg, todos), steps)
  {
    hide Run;
    hide ValidRun;
    hide NewWorker;
    hide Sum;
    hide RunGivesUp;
    var w0 := NewWorker(cfg, todos);
    NewWorkerSound(cfg, todos);
    NothingTodo(cfg, todos);
    NothingAbandoned(cfg, todos);
    RunSound(cfg, w0, steps);
    RunKeepsTodo(cfg, w0, steps);
    RunAbandonsIff(cfg, w0, steps);
    SumOfTwo(Run(cfg, w0, steps).clients);
  }

  lemma NothingAbandoned(cfg: Config, todos: seq<nat>)
    ensures Sum(AbandonedOf, NewWorker(cfg, todos).clients) == 0
  {
    var w := NewWorker(cfg, todos);
    assert forall i :: 0 <= i < |w.clients| ==> w.clients[i] == NewClient(if cfg.timingBased then 0 else todos[i]);
    SumOfNew(AbandonedOf, w.clients);
  }

  /** A timed test has no number of requests. */
  lemma NothingTodo(cfg: Config, todos: seq<nat>)
    requires TimedConfig(cfg)
    ensures NewWorker(cfg, todos).stats.todo == 0
  {
    var w := NewWorker(cfg, todos);
    NewWorkerSound(cfg, todos);
    assert forall i :: 0 <= i < |w.clients| ==> w.clients[i] == NewClient(0);
    SumOfNew(TodoOf, w.clients);
  }

  /** One client, whose first submission after the warm-up is refused: the report wraps. */
  lemma TimedReportWraps()
    ensures var cfg := Config(true, false, 0.0, 1, false);
            var steps := [ClientStep(0, ConnectEvent), WarmupTimeout, ClientStep(0, MadeEvent(0.0, [Refused]))];
            && ValidRun(cfg, NewWorker(cfg, [0]), steps)
            && var w := Run(cfg, NewWorker(cfg, [0]), steps);
            w.stats.todo + Sum(DoneOf, w.clients) < w.stats.statusSuccess + w.stats.failed
  {
    var cfg := Config(true, false, 0.0, 1, false);
    var steps := [ClientStep(0, ConnectEvent), WarmupTimeout, ClientStep(0, MadeEvent(0.0, [Refused]))];
    var w0 := NewWorker(cfg, [0]);
    assert w0.clients == [NewClient(0)];
    ConnectStep(cfg, w0);
    var w1 := WorkerStep(cfg, w0, steps[0]);
    var w2 := WorkerStep(cfg, w1, WarmupTimeout);
    hide WorkerStep;
    hide NewWorker;
    hide ClientOp;
    FirstRefused(cfg, w2);
    ThreeSteps(cfg, w0, w1, w2, steps);
    TimedReportWrapsIff(cfg, [0], steps);
  }

  lemma ConnectStep(cfg: Config, w: Worker)
    requires cfg.timingBased && w.clients == [NewClient(0)] && w.phase == InitialIdle
    ensures StepEnabled(cfg, w, ClientStep(0, ConnectEvent))
    ensures WorkerStep(cfg, w, ClientStep(0, ConnectEvent)) ==
              w.(phase := WarmUp, clients := [NewClient(0).(conn := Connecting)], warmupArmed := true)
  {
  }

  lemma FirstRefused(cfg: Config, w: Worker)
    requires cfg.rps == 0.0 && cfg.maxStreams == 1
    requires w.phase == MainDuration && w.clients == [NewClient(0).(conn := Connecting)]
    ensures StepEnabled(cfg, w, ClientStep(0, MadeEvent(0.0, [Refused])))
    ensures StepGivesUp(cfg, w, ClientStep(0, MadeEvent(0.0, [Refused])))
  {
    assert RefusedAt(cfg, 0, 1, [Refused], 0, 0);
  }

  lemma ThreeSteps(cfg: Config, w0: Worker, w1: Worker, w2: Worker, steps: seq<Step>)
    requires |steps| == 3 && StepEnabled(cfg, w0, steps[0]) && w1 == WorkerStep(cfg, w0, steps[0])
    requires StepEnabled(cfg, w1, steps[1]) && w2 == WorkerStep(cfg, w1, steps[1])
    requires StepEnabled(cfg, w2, steps[2]) && StepGivesUp(cfg, w2, steps[2])
    ensures ValidRun(cfg, w0, steps) && RunGivesUp(cfg, w0, steps)
  {
    hide WorkerStep;
    hide StepEnabled;
    hide StepGivesUp;
    var w3 := WorkerStep(cfg, w2, steps[2]);
    assert steps[2..] == [steps[2]] && steps[2..][1..] == [];
    assert ValidRun(cfg, w3, []);
    assert ValidRun(cfg, w2, steps[2..]) && RunGivesUp(cfg, w2, steps[2..]);
    assert steps[1..][1..] == steps[2..];
    assert ValidRun(cfg, w1, steps[1..]) && RunGivesUp(cfg, w1, steps[1..]);
  }
}
