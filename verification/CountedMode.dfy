/** Tests with a fixed number of requests: no request is lost, none is counted twice, and the final
    arithmetic of `main` cannot go below zero.

    This is proved for clients that do not reconnect and sessions that do not run out of stream ids.
    For the other cases `process_request_failure` breaks the balance, and the lemmas below say exactly when.
 */
module CountedMode {

  import opened Basics
  import opened ClientLifecycle
  import opened ClientInvariants

  /** Requests done, open, still to be sent and given up make up the client's share. */
  predicate Balanced(c: Client) {
    c.done + c.inflight + c.left + c.h.abandoned == c.todo
  }

  /** The in-flight counter is the number of open streams, all of them counted. */
  predicate Exact(c: Client) {
    c.inflight == |c.streams| && c.eligible == c.streams
  }

  ghost predicate Counted(cfg: Config, c: Client) {
    && Sound(cfg, c) && Balanced(c) && Exact(c)
    && (c.conn == Connecting ==> c.left > 0)
    && c.todo < WORD_LIMIT
  }

  /** A fixed number of requests, no reconnection. */
  predicate CountedConfig(cfg: Config) {
    ValidConfig(cfg) && !cfg.timingBased && !cfg.retry
  }

  /** An event in which the session never runs out of stream ids and the connection is not switched. */
  predicate Plain(e: Event) {
    match e
    case MadeEvent(_, os) => Exhausted !in os
    case TickEvent(_, os) => Exhausted !in os
    case CloseEvent(_, _, _, _, o) => o != Exhausted
    case SwitchEvent => false
    case _ => true
  }

  lemma SubmitCounted(cfg: Config, s: Local, o: Outcome)
    requires CountedConfig(cfg) && s.phase == MainDuration && o != Exhausted
    requires Counted(cfg, s.c) && s.c.conn == Connected && s.c.left > 0
    ensures var r := SubmitRequest(cfg, s, o);
            && Counted(cfg, r.after.c) && r.after.phase == s.phase && r.after.c.conn == Connected
            && (r.ok ==> r.after.c.left == s.c.left - 1)
  {
    SubmitSound(cfg, s, o);
    assert s.c.nextId !in s.c.streams;
    assert |s.c.streams + {s.c.nextId}| == |s.c.streams| + 1;
  }

  lemma {:induction false} LoopCounted(cfg: Config, s: Local, n: nat, os: seq<Outcome>, i: nat, paced: bool)
    requires CountedConfig(cfg) && s.phase == MainDuration && Exhausted !in os
    requires Counted(cfg, s.c) && s.c.conn == Connected && n <= s.c.left
    ensures var t := SubmitLoop(cfg, s, n, os, i, paced);
            Counted(cfg, t.c) && t.phase == s.phase && t.c.conn == Connected
    decreases n
  {
    hide SubmitRequest;
    if n > 0 {
      SubmitCounted(cfg, s, Answer(os, i));
      var r := SubmitRequest(cfg, s, Answer(os, i));
      if r.ok {
        LoopCounted(cfg, if paced then TakePending(r.after) else r.after, n - 1, os, i + 1, paced);
      }
    }
  }

  /** The assertion `req_left` of connection_made holds: a connecting client has requests left. */
  lemma MadeCounted(cfg: Config, s: Local, now: real, os: seq<Outcome>)
    requires CountedConfig(cfg) && s.phase == MainDuration && Exhausted !in os
    requires Counted(cfg, s.c) && s.c.conn == Connecting
    ensures s.c.left > 0
    ensures var t := ConnectionMade(cfg, s, now, os); Counted(cfg, t.c) && t.phase == s.phase
  {
    hide SubmitRequest;
    hide SubmitLoop;
    var c1 := s.c.(conn := Connected, nextId := 1, h := s.c.h.(sent := 0));
    LoopCounted(cfg, s.(c := c1), Min(s.c.left, cfg.maxStreams), os, 0, false);
    var c2 := c1.(rpsStart := now, rpsInflight := c1.rpsInflight + 1,
                  h := c1.h.(carried := c1.rpsPending, granted := 0, connectedAt := now, lastTick := now));
    SubmitCounted(cfg, s.(c := c2), Answer(os, 0));
  }

  lemma CloseCounted(cfg: Config, s: Local, id: nat, success: bool, statusOk: bool, final: bool, o: Outcome)
    requires CountedConfig(cfg) && s.phase == MainDuration && o != Exhausted
    requires Counted(cfg, s.c) && s.c.conn == Connected && id in s.c.streams
    ensures var t := OnStreamClose(cfg, s, id, success, statusOk, final, o); Counted(cfg, t.c) && t.phase == s.phase
  {
    hide SubmitRequest;
    var s1 := StreamGone(cfg, s, id, success, statusOk);
    GoneSound(cfg, s, id, success, statusOk);
    assert |s.c.streams - {id}| == |s.c.streams| - 1;
    assert Counted(cfg, s1.c);
    if s1.c.left > 0 {
      SubmitCounted(cfg, s1, o);
    }
  }

  /** The subtraction of open streams from the maximum does not wrap. */
  lemma RoomDoesNotWrap(cfg: Config, c: Client)
    requires ValidConfig(cfg) && Sound(cfg, c)
    ensures WrapSub(cfg.maxStreams, |c.streams|) == cfg.maxStreams - |c.streams|
  {
  }

  lemma TickCounted(cfg: Config, s: Local, now: real, os: seq<Outcome>)
    requires CountedConfig(cfg) && s.phase == MainDuration && Exhausted !in os && cfg.rps > 0.0
    requires Counted(cfg, s.c)
    ensures var t := OnRpsTimer(cfg, s, now, os); Counted(cfg, t.c) && t.phase == s.phase
  {
    hide SubmitLoop;
    if s.c.conn == Connected && now - s.c.rpsStart >= 0.0 {
      var s1 := s.(c := Grant(cfg, s.c, now));
      var room := WrapSub(cfg.maxStreams, |s.c.streams|);
      LoopCounted(cfg, s1, Min(Min(room, s.c.left), s1.c.rpsPending), os, 0, true);
    }
  }

  lemma LossCounted(cfg: Config, s: Local)
    requires CountedConfig(cfg) && s.phase == MainDuration && Counted(cfg, s.c)
    ensures Counted(cfg, Fail(cfg, s).c) && Fail(cfg, s).phase == s.phase && Fail(cfg, s).c.left == 0
    ensures Counted(cfg, Timeout(cfg, s).c) && Timeout(cfg, s).phase == s.phase
  {
  }

  lemma EventCounted(cfg: Config, s: Local, e: Event)
    requires CountedConfig(cfg) && s.phase == MainDuration && Counted(cfg, s.c)
    requires Enabled(cfg, s, e) && Plain(e)
    ensures Counted(cfg, ClientOp(cfg, s, e).c) && ClientOp(cfg, s, e).phase == s.phase
  {
    hide ConnectionMade;
    hide OnStreamClose;
    hide OnRpsTimer;
    hide Fail;
    hide Timeout;
    match e
    case ConnectEvent =>
    case MadeEvent(now, os) => MadeCounted(cfg, s, now, os);
    case CloseEvent(id, success, statusOk, final, o) => CloseCounted(cfg, s, id, success, statusOk, final, o);
    case TickEvent(now, os) => TickCounted(cfg, s, now, os);
    case TimeoutEvent => LossCounted(cfg, s);
    case FailEvent => LossCounted(cfg, s);
    case ErrorEvent =>
      LossCounted(cfg, s);
      LossCounted(cfg, Fail(cfg, s));
  }

  // ---------------------------------------------------------------------------------------
  // Whole runs of a worker
  // ---------------------------------------------------------------------------------------

  ghost predicate CountedWorker(cfg: Config, w: Worker) {
    && SoundWorker(cfg, w)
    && w.phase == MainDuration && !w.durationArmed
    && (forall i :: 0 <= i < |w.clients| ==> Counted(cfg, w.clients[i]))
  }

  predicate PlainStep(st: Step) {
    st.ClientStep? ==> Plain(st.e)
  }

  lemma StepCounted(cfg: Config, w: Worker, st: Step)
    requires CountedConfig(cfg) && CountedWorker(cfg, w)
    requires StepEnabled(cfg, w, st) && PlainStep(st)
    ensures CountedWorker(cfg, WorkerStep(cfg, w, st))
  {
    hide ClientOp;
    hide Counted;
    hide SoundWorker;
    StepSound(cfg, w, st);
    ArmedPhase(cfg, w);
    EventCounted(cfg, LocalOf(w, st.i), st.e);
  }

  lemma ArmedPhase(cfg: Config, w: Worker)
    requires SoundWorker(cfg, w) && w.phase == MainDuration
    ensures !w.warmupArmed
  {
  }

  lemma {:induction false} RunCounted(cfg: Config, w: Worker, steps: seq<Step>)
    requires CountedConfig(cfg) && CountedWorker(cfg, w)
    requires ValidRun(cfg, w, steps) && forall st :: st in steps ==> PlainStep(st)
    ensures CountedWorker(cfg, Run(cfg, w, steps))
    decreases |steps|
  {
    hide CountedWorker;
    hide WorkerStep;
    if steps != [] {
      StepCounted(cfg, w, steps[0]);
      RunCounted(cfg, WorkerStep(cfg, w, steps[0]), steps[1..]);
    }
  }

  lemma NewWorkerCounted(cfg: Config, todos: seq<nat>)
    requires CountedConfig(cfg) && forall k :: 0 <= k < |todos| ==> 0 < todos[k] < WORD_LIMIT
    ensures CountedWorker(cfg, NewWorker(cfg, todos))
  {
    NewWorkerSound(cfg, todos);
    var cs := NewWorker(cfg, todos).clients;
    assert forall i :: 0 <= i < |cs| ==> cs[i] == NewClient(todos[i]);
  }

  lemma {:induction false} SumBound(f: Client -> nat, g: Client -> nat, cs: seq<Client>)
    requires forall i :: 0 <= i < |cs| ==> f(cs[i]) <= g(cs[i])
    ensures Sum(f, cs) <= Sum(g, cs)
    ensures (forall i :: 0 <= i < |cs| ==> f(cs[i]) == g(cs[i])) ==> Sum(f, cs) == Sum(g, cs)
  {
    if cs != [] {
      SumBound(f, g, cs[1..]);
    }
  }

  /** A client has nothing left to do. */
  predicate Finished(c: Client) {
    c.left == 0 && c.inflight == 0
  }

  /** In every state a worker can reach: each client's requests add up, its in-flight counter is its
      number of open streams, successes and failures never exceed what was to be done, and they are
      exactly that once all clients are finished. */
  lemma NoRequestIsLost(cfg: Config, todos: seq<nat>, steps: seq<Step>)
    requires CountedConfig(cfg) && forall k :: 0 <= k < |todos| ==> 0 < todos[k] < WORD_LIMIT
    requires ValidRun(cfg, NewWorker(cfg, todos), steps) && forall st :: st in steps ==> PlainStep(st)
    ensures var w := Run(cfg, NewWorker(cfg, todos), steps);
            && (forall i :: 0 <= i < |w.clients| ==> Balanced(w.clients[i]) && Exact(w.clients[i]))
            && w.stats.statusSuccess + w.stats.failed <= w.stats.todo && w.stats.error <= w.stats.failed
            && ((forall i :: 0 <= i < |w.clients| ==> Finished(w.clients[i])) ==>
                  w.stats.statusSuccess + w.stats.failed == w.stats.todo)
  {
    hide NewWorker;
    hide Run;
    NewWorkerCounted(cfg, todos);
    RunCounted(cfg, NewWorker(cfg, todos), steps);
    WorkerTotals(cfg, Run(cfg, NewWorker(cfg, todos), steps));
  }

  lemma WorkerTotals(cfg: Config, w: Worker)
    requires CountedWorker(cfg, w)
    ensures w.stats.statusSuccess + w.stats.failed <= w.stats.todo
    ensures (forall i :: 0 <= i < |w.clients| ==> Finished(w.clients[i])) ==>
              w.stats.statusSuccess + w.stats.failed == w.stats.todo
  {
    forall i | 0 <= i < |w.clients|
      ensures SettledOf(w.clients[i]) <= TodoOf(w.clients[i])
      ensures Finished(w.clients[i]) ==> SettledOf(w.clients[i]) == TodoOf(w.clients[i])
    {
      assert Counted(cfg, w.clients[i]);
    }
    SumBound(SettledOf, TodoOf, w.clients);
  }

  // ---------------------------------------------------------------------------------------
  // The final report of main
  // ---------------------------------------------------------------------------------------

  /** Sums over all workers. */
  function TotalTodo(ws: seq<Stats>): nat {
    if ws == [] then 0 else TotalTodo(ws[..|ws| - 1]) + ws[|ws| - 1].todo
  }

  function TotalSettled(ws: seq<Stats>): nat {
    if ws == [] then 0
    else TotalSettled(ws[..|ws| - 1]) + ws[|ws| - 1].statusSuccess + ws[|ws| - 1].failed
  }

  ghost function TotalSuccess(ws: seq<Stats>): nat {
    if ws == [] then 0 else TotalSuccess(ws[..|ws| - 1]) + ws[|ws| - 1].statusSuccess
  }

  ghost function TotalError(ws: seq<Stats>): nat {
    if ws == [] then 0 else TotalError(ws[..|ws| - 1]) + ws[|ws| - 1].error
  }

  /** main: the counters of the workers are added up, and the requests that are in no statistics are
      reported as failed.  If no worker has more outcomes than requests, the unsigned subtraction does
      not wrap, and success and failure together make up all requests. */
  method FinalReport(ws: seq<Stats>) returns (todo: nat, statusSuccess: nat, failed: nat, error: nat)
    requires forall k :: 0 <= k < |ws| ==>
               ws[k].statusSuccess + ws[k].failed <= ws[k].todo && ws[k].error <= ws[k].failed
    requires TotalTodo(ws) < WORD_LIMIT
    ensures todo == TotalTodo(ws)
    ensures statusSuccess == TotalSuccess(ws) && statusSuccess + failed == todo
    ensures error == TotalError(ws) + (todo - TotalSettled(ws)) && error <= failed
  {
    todo, statusSuccess, failed, error := 0, 0, 0, 0;
    for i := 0 to |ws|
      invariant todo == TotalTodo(ws[..i])
      invariant statusSuccess == TotalSuccess(ws[..i]) && error == TotalError(ws[..i])
      invariant statusSuccess + failed == TotalSettled(ws[..i])
      invariant statusSuccess + failed <= todo
      invariant error <= failed
    {
      assert ws[..i + 1][..i] == ws[..i];
      todo := todo + ws[i].todo;
      statusSuccess := statusSuccess + ws[i].statusSuccess;
      failed := failed + ws[i].failed;
      error := error + ws[i].error;
    }
    assert ws[..|ws|] == ws;
    var notIssued := WrapSub(WrapSub(todo, statusSuccess), failed);
    failed := failed + notIssued;
    error := error + notIssued;
  }

  // ---------------------------------------------------------------------------------------
  // How many streams a willing session gets
  // ---------------------------------------------------------------------------------------

  lemma {:induction false} LoopFills(cfg: Config, s: Local, n: nat, os: seq<Outcome>, i: nat)
    requires CountedConfig(cfg) && s.phase == MainDuration
    requires Counted(cfg, s.c) && s.c.conn == Connected && n <= s.c.left
    requires i + n <= |os| && forall k :: 0 <= k < |os| ==> os[k] == Opened
    ensures |SubmitLoop(cfg, s, n, os, i, false).c.streams| == Min(|s.c.streams| + n, (cfg.maxStreams + 1) / 2)
    decreases n
  {
    if n > 0 {
      SubmitCounted(cfg, s, Answer(os, i));
      var r := SubmitRequest(cfg, s, Answer(os, i));
      if r.ok {
        LoopFills(cfg, r.after, n - 1, os, i + 1);
        assert |r.after.c.streams| == |s.c.streams| + 1;
      }
    }
  }

  /** Because a client's own streams are counted twice, a new connection opens at most half of the
      configured maximum (rounded up), even if the session accepts everything. */
  lemma HalfOfTheMaximum(cfg: Config, s: Local, now: real, os: seq<Outcome>)
    requires CountedConfig(cfg) && cfg.rps == 0.0 && s.phase == MainDuration
    requires Counted(cfg, s.c) && s.c.conn == Connecting
    requires |os| >= s.c.left && forall k :: 0 <= k < |os| ==> os[k] == Opened
    ensures |ConnectionMade(cfg, s, now, os).c.streams| == Min(s.c.left, (cfg.maxStreams + 1) / 2)
  {
    hide SubmitLoop;
    var c1 := s.c.(conn := Connected, nextId := 1, h := s.c.h.(sent := 0));
    LoopFills(cfg, s.(c := c1), Min(s.c.left, cfg.maxStreams), os, 0);
  }

  // ---------------------------------------------------------------------------------------
  // Where the balance breaks
  // ---------------------------------------------------------------------------------------

  /** A refused submission keeps the balance if and only if nothing was left, or the client gives up:
      it may not reconnect and the session did not run out of stream ids. */
  lemma FailureBalancedIff(cfg: Config, s: Local, o: Outcome)
    requires s.phase == MainDuration && Balanced(s.c) && o != Opened
    ensures Balanced(ProcessRequestFailure(cfg, s, o).c) <==> s.c.left == 0 || (!cfg.retry && o == Refused)
  {
  }

  /** Replacing a connection keeps the in-flight counter exact if and only if nothing was in flight. */
  lemma SwitchExactIff(s: Local)
    requires Exact(s.c)
    ensures Exact(SwitchConnection(s).c) <==> s.c.inflight == 0
  {
  }

  /** So does the close of a stream the client does not know. */
  lemma UnknownCloseExactIff(cfg: Config, s: Local, id: nat, success: bool, statusOk: bool)
    requires s.phase == MainDuration && Exact(s.c) && id !in s.c.streams
    ensures Exact(StreamGone(cfg, s, id, success, statusOk).c) <==> s.c.inflight == 0
  {
  }

  /** A connection is replaced with one request in flight: the counter stays at one, with no stream open. */
  lemma SwitchLosesStream(s: Local)
    requires s.c == NewClient(1).(conn := Connected, streams := {1}, eligible := {1}, nextId := 3, left := 0,
                                  started := 1, inflight := 1)
    ensures Exact(s.c) && Balanced(s.c)
    ensures SwitchConnection(s).c.inflight == 1 && SwitchConnection(s).c.streams == {}
  {
  }

  // One request of a client that may reconnect, step by step.

  function RetryConfig(): Config {
    Config(false, true, 0.0, 1, false)
  }

  /** A client with one request left, in the main phase, after `failed` requests were charged as failed. */
  function OneLeft(conn: ConnState, failed: nat): Local {
    var c := NewClient(1);
    Local(MainDuration, Stats(1, 0, 0, 0, 0, failed, failed, 0), c.(conn := conn, h := c.h.(abandoned := failed)))
  }

  /** The first submission is refused: the request is charged as failed, and is still left. */
  lemma RefusedIsCharged()
    ensures Connect(RetryConfig(), OneLeft(Idle, 0)) == OneLeft(Connecting, 0)
    ensures ConnectionMade(RetryConfig(), OneLeft(Connecting, 0), 0.0, [Refused]) == OneLeft(Connected, 1)
  {
  }

  lemma ErrorReconnects()
    ensures ConnectionError(RetryConfig(), OneLeft(Connected, 1)) == OneLeft(Connecting, 1)
  {
  }

  /** The same request is submitted on the second connection. */
  lemma SecondIsOpened()
    ensures var s := ConnectionMade(RetryConfig(), OneLeft(Connecting, 1), 1.0, [Opened]);
            && s.phase == MainDuration && s.stats == OneLeft(Connected, 1).stats.(started := 1)
            && s.c.conn == Connected && s.c.streams == s.c.eligible == {1} && s.c.left == 0 && s.c.inflight == 1
  {
    hide SubmitRequest;
    var s := OneLeft(Connecting, 1);
    var t := s.(c := s.c.(conn := Connected));
    FirstOpens(t);
  }

  lemma FirstOpens(s: Local)
    requires s == OneLeft(Connected, 1)
    ensures var r := SubmitRequest(RetryConfig(), s, Opened);
            && r.ok && r.after.phase == MainDuration && r.after.stats == s.stats.(started := 1)
            && r.after.c.conn == Connected && r.after.c.streams == r.after.c.eligible == {1}
            && r.after.c.left == 0 && r.after.c.inflight == 1
  {
  }

  lemma ClosedIsCounted(s: Local)
    requires s.phase == MainDuration && s.c.conn == Connected && s.c.streams == s.c.eligible == {1}
    requires s.c.left == 0 && s.c.inflight == 1
    ensures OnStreamClose(RetryConfig(), s, 1, true, true, false, Refused).stats ==
              s.stats.(success := s.stats.success + 1, statusSuccess := s.stats.statusSuccess + 1,
                       done := s.stats.done + 1)
  {
  }

  /** With reconnection, one request can be counted as failed and then succeed: success and failure
      exceed the number of requests, and the subtraction in main wraps. */
  lemma RetryCountsTwice()
    ensures var cfg := RetryConfig();
            var s1 := Connect(cfg, OneLeft(Idle, 0));
            var s2 := ConnectionMade(cfg, s1, 0.0, [Refused]);
            var s3 := ConnectionError(cfg, s2);
            var s4 := ConnectionMade(cfg, s3, 1.0, [Opened]);
            && Enabled(cfg, s1, MadeEvent(0.0, [Refused])) && Enabled(cfg, s3, MadeEvent(1.0, [Opened]))
            && Enabled(cfg, s4, CloseEvent(1, true, true, false, Refused))
            && var s5 := OnStreamClose(cfg, s4, 1, true, true, false, Refused);
            s5.stats.statusSuccess + s5.stats.failed == 2 && s5.stats.todo == 1
  {
    hide Connect;
    hide ConnectionMade;
    hide ConnectionError;
    hide OnStreamClose;
    RefusedIsCharged();
    ErrorReconnects();
    SecondIsOpened();
    ClosedIsCounted(ConnectionMade(RetryConfig(), OneLeft(Connecting, 1), 1.0, [Opened]));
  }
}
