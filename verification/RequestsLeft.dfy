/** The assertion `req_left` of connection_made, in every mode: a client that is paced by a timer has a request left
    when its connection is made.

    All ways to a new connection look at `req_left` first, except the switch to another host.
 */
module RequestsLeft {

  import opened Basics
  import opened ClientLifecycle

  /** A client that connects without a request left. */
  predicate Stale(c: Client) {
    c.conn == Connecting && c.left == 0
  }

  /** Whether the client is stale after `e`, from its state before. */
  predicate StaleNext(c: Client, e: Event) {
    match e
    case SwitchEvent => c.left == 0
    case TickEvent(_, _) => Stale(c)
    case _ => false
  }

  lemma SubmitKeepsConn(cfg: Config, s: Local, o: Outcome)
    ensures SubmitRequest(cfg, s, o).after.c.conn == s.c.conn
  {
  }

  lemma {:induction false} LoopKeepsConn(cfg: Config, s: Local, n: nat, os: seq<Outcome>, i: nat, paced: bool)
    ensures SubmitLoop(cfg, s, n, os, i, paced).c.conn == s.c.conn
    decreases n
  {
    hide SubmitRequest;
    if n > 0 {
      SubmitKeepsConn(cfg, s, Answer(os, i));
      var r := SubmitRequest(cfg, s, Answer(os, i));
      LoopKeepsConn(cfg, if paced then TakePending(r.after) else r.after, n - 1, os, i + 1, paced);
    }
  }

  lemma MadeConnects(cfg: Config, s: Local, now: real, os: seq<Outcome>)
    ensures ConnectionMade(cfg, s, now, os).c.conn == Connected
  {
    hide SubmitRequest;
    hide SubmitLoop;
    var s1 := s.(c := FreshConnection(s.c));
    SubmitKeepsConn(cfg, s1.(c := StartClock(s1.c, now)), Answer(os, 0));
    LoopKeepsConn(cfg, s1, if cfg.timingBased then Max(s.c.left, cfg.maxStreams) else Min(s.c.left, cfg.maxStreams),
                  os, 0, false);
  }

  lemma TickKeepsConn(cfg: Config, s: Local, now: real, os: seq<Outcome>)
    requires cfg.rps > 0.0
    ensures OnRpsTimer(cfg, s, now, os).c.conn == s.c.conn
    ensures s.c.conn != Connected ==> OnRpsTimer(cfg, s, now, os) == s
  {
    hide SubmitRequest;
    hide SubmitLoop;
    hide Round;
    if s.c.conn == Connected && now - s.c.rpsStart >= 0.0 {
      var s1 := s.(c := Grant(cfg, s.c, now));
      var room := WrapSub(cfg.maxStreams, |s.c.streams|);
      LoopKeepsConn(cfg, s1, Min(if cfg.timingBased then Max(room, s.c.left) else Min(room, s.c.left), s1.c.rpsPending),
                    os, 0, true);
    }
  }

  lemma CloseKeepsConn(cfg: Config, s: Local, id: nat, success: bool, statusOk: bool, final: bool, o: Outcome)
    ensures OnStreamClose(cfg, s, id, success, statusOk, final, o).c.conn == s.c.conn
  {
    hide SubmitRequest;
    SubmitKeepsConn(cfg, StreamGone(cfg, s, id, success, statusOk), o);
  }

  /** One event: only a switch makes a client stale, and all that ends the connecting ends that too. */
  lemma StaleStep(cfg: Config, s: Local, e: Event)
    requires Enabled(cfg, s, e)
    ensures Stale(ClientOp(cfg, s, e).c) <==> StaleNext(s.c, e)
  {
    hide SubmitRequest;
    hide SubmitLoop;
    hide ConnectionMade;
    hide OnRpsTimer;
    hide OnStreamClose;
    match e
    case MadeEvent(now, os) => MadeConnects(cfg, s, now, os);
    case CloseEvent(id, success, statusOk, final, o) => CloseKeepsConn(cfg, s, id, success, statusOk, final, o);
    case TickEvent(now, os) => TickKeepsConn(cfg, s, now, os);
    case _ =>
  }

  /** Of a run, whether the last event of client `i` that matters was a switch without a request left. */
  ghost predicate StaleBy(cfg: Config, w: Worker, steps: seq<Step>, i: nat, stale: bool)
    requires ValidRun(cfg, w, steps) && i < |w.clients|
    decreases |steps|
  {
    if steps == [] then stale else
    var st := steps[0];
    var next := if !st.ClientStep? || st.i != i || st.e.TickEvent? then stale
                else st.e.SwitchEvent? && w.clients[i].left == 0;
    StaleBy(cfg, WorkerStep(cfg, w, st), steps[1..], i, next)
  }

  lemma {:induction false} StaleRun(cfg: Config, w: Worker, steps: seq<Step>, i: nat)
    requires ValidRun(cfg, w, steps) && i < |w.clients|
    ensures i < |Run(cfg, w, steps).clients|
    ensures Stale(Run(cfg, w, steps).clients[i]) <==> StaleBy(cfg, w, steps, i, Stale(w.clients[i]))
    decreases |steps|
  {
    hide ClientOp;
    hide Enabled;
    if steps != [] {
      var st := steps[0];
      if st.ClientStep? {
        StaleStep(cfg, LocalOf(w, st.i), st.e);
      }
      StaleRun(cfg, WorkerStep(cfg, w, st), steps[1..], i);
    }
  }

  /** The assertion at the head of a paced connection_made. */
  predicate AssertHolds(cfg: Config, c: Client) {
    cfg.rps > 0.0 ==> c.left > 0
  }

  /** After every run from the start, in every mode: when the connection of client `i` is made, the assertion fails
      if and only if the client is paced and was last switched without a request left. */
  lemma AssertFailsIff(cfg: Config, todos: seq<nat>, steps: seq<Step>, i: nat, now: real, answers: seq<Outcome>)
    requires ValidRun(cfg, NewWorker(cfg, todos), steps) && i < |todos|
    requires StepEnabled(cfg, Run(cfg, NewWorker(cfg, todos), steps), ClientStep(i, MadeEvent(now, answers)))
    ensures !AssertHolds(cfg, Run(cfg, NewWorker(cfg, todos), steps).clients[i])
            <==> cfg.rps > 0.0 && StaleBy(cfg, NewWorker(cfg, todos), steps, i, false)
  {
    hide Run;
    hide ValidRun;
    hide StaleBy;
    var w := NewWorker(cfg, todos);
    assert w.clients[i] == NewClient(if cfg.timingBased then 0 else todos[i]);
    StaleRun(cfg, w, steps, i);
  }

  /** No client is switched without a request left. */
  ghost predicate NoBareSwitch(cfg: Config, w: Worker, steps: seq<Step>)
    requires ValidRun(cfg, w, steps)
    decreases |steps|
  {
    steps == [] ||
    var st := steps[0];
    && (st.ClientStep? && st.e.SwitchEvent? ==> w.clients[st.i].left > 0)
    && NoBareSwitch(cfg, WorkerStep(cfg, w, st), steps[1..])
  }

  lemma {:induction false} NoBareSwitchKeeps(cfg: Config, w: Worker, steps: seq<Step>, i: nat)
    requires ValidRun(cfg, w, steps) && i < |w.clients| && NoBareSwitch(cfg, w, steps)
    ensures !StaleBy(cfg, w, steps, i, false)
    decreases |steps|
  {
    hide ClientOp;
    hide Enabled;
    if steps != [] {
      NoBareSwitchKeeps(cfg, WorkerStep(cfg, w, steps[0]), steps[1..], i);
    }
  }

  /** In every mode, with or without reconnection: without such a switch the assertion always holds. */
  lemma AssertAlwaysHolds(cfg: Config, todos: seq<nat>, steps: seq<Step>, i: nat, now: real, answers: seq<Outcome>)
    requires ValidRun(cfg, NewWorker(cfg, todos), steps) && i < |todos|
    requires StepEnabled(cfg, Run(cfg, NewWorker(cfg, todos), steps), ClientStep(i, MadeEvent(now, answers)))
    requires NoBareSwitch(cfg, NewWorker(cfg, todos), steps)
    ensures AssertHolds(cfg, Run(cfg, NewWorker(cfg, todos), steps).clients[i])
  {
    hide Run;
    hide ValidRun;
    hide StaleBy;
    hide NoBareSwitch;
    AssertFailsIff(cfg, todos, steps, i, now, answers);
    NoBareSwitchKeeps(cfg, NewWorker(cfg, todos), steps, i);
  }

  /** One request, sent when the connection is made; then the preferred host is up again. */
  lemma SwitchWithoutRequests()
    ensures var cfg := Config(false, false, 1.0, 100, false);
            var steps := [ClientStep(0, ConnectEvent), ClientStep(0, MadeEvent(0.0, [Opened])),
                          ClientStep(0, SwitchEvent)];
            && ValidRun(cfg, NewWorker(cfg, [1]), steps)
            && var w := Run(cfg, NewWorker(cfg, [1]), steps);
            StepEnabled(cfg, w, ClientStep(0, MadeEvent(1.0, [Opened]))) && !AssertHolds(cfg, w.clients[0])
  {
    var cfg := Config(false, false, 1.0, 100, false);
    var steps := [ClientStep(0, ConnectEvent), ClientStep(0, MadeEvent(0.0, [Opened])), ClientStep(0, SwitchEvent)];
    var w0 := NewWorker(cfg, [1]);
    assert w0.clients == [NewClient(1)];
    var w1 := FirstConnect(cfg, w0);
    var w2 := FirstMade(cfg, w1);
    var w3 := FirstSwitch(cfg, w2);
    hide WorkerStep;
    hide StepEnabled;
    RunOfThree(cfg, w0, w1, w2, w3, steps);
    StillConnecting(cfg, w3);
  }

  lemma FirstConnect(cfg: Config, w: Worker) returns (v: Worker)
    requires !cfg.timingBased && w.phase == MainDuration && w.clients == [NewClient(1)]
    ensures StepEnabled(cfg, w, ClientStep(0, ConnectEvent)) && v == WorkerStep(cfg, w, ClientStep(0, ConnectEvent))
    ensures v.phase == MainDuration && v.clients == [NewClient(1).(conn := Connecting)]
  {
    v := WorkerStep(cfg, w, ClientStep(0, ConnectEvent));
  }

  lemma FirstMade(cfg: Config, w: Worker) returns (v: Worker)
    requires !cfg.timingBased && cfg.rps > 0.0 && cfg.maxStreams > 0
    requires w.phase == MainDuration && w.clients == [NewClient(1).(conn := Connecting)]
    ensures var st := ClientStep(0, MadeEvent(0.0, [Opened]));
            StepEnabled(cfg, w, st) && v == WorkerStep(cfg, w, st)
    ensures |v.clients| == 1 && v.clients[0].conn == Connected && v.clients[0].left == 0
  {
    v := WorkerStep(cfg, w, ClientStep(0, MadeEvent(0.0, [Opened])));
  }

  lemma FirstSwitch(cfg: Config, w: Worker) returns (v: Worker)
    requires |w.clients| == 1 && w.clients[0].conn == Connected && w.clients[0].left == 0
    ensures StepEnabled(cfg, w, ClientStep(0, SwitchEvent)) && v == WorkerStep(cfg, w, ClientStep(0, SwitchEvent))
    ensures |v.clients| == 1 && Stale(v.clients[0])
  {
    v := WorkerStep(cfg, w, ClientStep(0, SwitchEvent));
  }

  lemma RunOfThree(cfg: Config, w0: Worker, w1: Worker, w2: Worker, w3: Worker, steps: seq<Step>)
    requires |steps| == 3 && StepEnabled(cfg, w0, steps[0]) && w1 == WorkerStep(cfg, w0, steps[0])
    requires StepEnabled(cfg, w1, steps[1]) && w2 == WorkerStep(cfg, w1, steps[1])
    requires StepEnabled(cfg, w2, steps[2]) && w3 == WorkerStep(cfg, w2, steps[2])
    ensures ValidRun(cfg, w0, steps) && Run(cfg, w0, steps) == w3
  {
    hide WorkerStep;
    hide StepEnabled;
    assert steps[1..][1..] == steps[2..] && steps[2..][1..] == [];
    assert ValidRun(cfg, w3, []) && Run(cfg, w3, []) == w3;
    assert ValidRun(cfg, w2, steps[2..]) && Run(cfg, w2, steps[2..]) == w3;
    assert ValidRun(cfg, w1, steps[1..]) && Run(cfg, w1, steps[1..]) == w3;
  }

  lemma StillConnecting(cfg: Config, w: Worker)
    requires |w.clients| == 1 && Stale(w.clients[0])
    ensures StepEnabled(cfg, w, ClientStep(0, MadeEvent(1.0, [Opened])))
  {
  }
}
