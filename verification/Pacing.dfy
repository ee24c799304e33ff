/** Constant request rate: the timer grants requests without drift, and no more are sent than granted. */
module Pacing {

  import opened Basics
  import opened ClientLifecycle
  import opened ClientInvariants
  import opened CountedMode

  /** Since the connection was made, the timer has granted exactly what the start of the current interval
      says; at the last tick that was within one half of rate times elapsed time; and every request sent,
      but the first and those carried over from an earlier connection, was granted. */
  ghost predicate Paced(cfg: Config, c: Client) {
    c.conn == Connected ==>
      && c.h.granted as real == cfg.rps * (c.rpsStart - c.h.connectedAt)
      && -0.5 <= cfg.rps * (c.h.lastTick - c.h.connectedAt) - c.h.granted as real <= 0.5
      && c.h.sent + c.rpsPending <= 1 + c.h.carried + c.h.granted
  }

  /** Fields the pacing does not share with submissions. */
  ghost predicate SameClock(c: Client, d: Client) {
    && d.rpsStart == c.rpsStart && d.h.connectedAt == c.h.connectedAt && d.h.lastTick == c.h.lastTick
    && d.h.granted == c.h.granted && d.h.carried == c.h.carried && d.conn == c.conn
  }

  lemma SubmitClock(cfg: Config)
    ensures forall s: Local, o: Outcome ::
              var r := SubmitRequest(cfg, s, o);
              && SameClock(s.c, r.after.c)
              && r.after.c.rpsPending == s.c.rpsPending && r.after.c.rpsInflight == s.c.rpsInflight
              && r.after.c.h.sent == s.c.h.sent + if r.ok then 1 else 0
  {
  }

  lemma {:induction false} LoopClock(cfg: Config, s: Local, n: nat, os: seq<Outcome>, i: nat)
    requires n <= s.c.rpsPending
    ensures var t := SubmitLoop(cfg, s, n, os, i, true);
            && SameClock(s.c, t.c)
            && t.c.h.sent + t.c.rpsPending == s.c.h.sent + s.c.rpsPending
            && t.c.rpsInflight - s.c.rpsInflight == t.c.h.sent - s.c.h.sent
    decreases n
  {
    hide SubmitRequest;
    SubmitClock(cfg);
    if n > 0 {
      var r := SubmitRequest(cfg, s, Answer(os, i));
      if r.ok {
        LoopClock(cfg, TakePending(r.after), n - 1, os, i + 1);
      }
    }
  }

  lemma Cancel(rps: real, n: real)
    requires rps > 0.0
    ensures rps * (n / rps) == n
  {
  }

  lemma Distribute(a: real, b: real, c: real, d: real)
    ensures a * (b + c - d) == a * (b - d) + a * c
  {
  }

  /** The arithmetic of one tick. */
  lemma GrantPaced(cfg: Config, c: Client, now: real)
    requires cfg.rps > 0.0 && now >= c.rpsStart && c.conn == Connected && Paced(cfg, c)
    requires (now - c.rpsStart) * cfg.rps >= 0.0
    ensures Paced(cfg, Grant(cfg, c, now))
  {
    var x := (now - c.rpsStart) * cfg.rps;
    var n := Round(x);
    var d := Grant(cfg, c, now);
    Cancel(cfg.rps, n as real);
    Distribute(cfg.rps, c.rpsStart, n as real / cfg.rps, c.h.connectedAt);
    Distribute(cfg.rps, c.rpsStart, now - c.rpsStart, c.h.connectedAt);
    assert c.rpsStart + (now - c.rpsStart) - c.h.connectedAt == now - c.h.connectedAt;
  }

  lemma TickPaced(cfg: Config, s: Local, now: real, os: seq<Outcome>)
    requires cfg.rps > 0.0 && Paced(cfg, s.c)
    ensures Paced(cfg, OnRpsTimer(cfg, s, now, os).c)
  {
    hide SubmitLoop;
    hide Grant;
    hide Paced;
    if s.c.conn == Connected && s.c.left != 0 && now - s.c.rpsStart >= 0.0 {
      ElapsedNotNegative(cfg, s.c, now);
      GrantPaced(cfg, s.c, now);
      GrantKeeps(cfg, s.c, now);
      var s1 := s.(c := Grant(cfg, s.c, now));
      var room := WrapSub(cfg.maxStreams, |s.c.streams|);
      var n := if cfg.timingBased then Max(room, s.c.left) else Min(room, s.c.left);
      LoopClock(cfg, s1, Min(n, s1.c.rpsPending), os, 0);
      SameSum(cfg, s1.c, SubmitLoop(cfg, s1, Min(n, s1.c.rpsPending), os, 0, true).c);
    }
  }

  lemma ElapsedNotNegative(cfg: Config, c: Client, now: real)
    requires cfg.rps > 0.0 && now >= c.rpsStart
    ensures (now - c.rpsStart) * cfg.rps >= 0.0
  {
  }

  lemma GrantKeeps(cfg: Config, c: Client, now: real)
    requires cfg.rps > 0.0 && now >= c.rpsStart
    ensures Grant(cfg, c, now).conn == c.conn && Grant(cfg, c, now).h.sent == c.h.sent
  {
    ElapsedNotNegative(cfg, c, now);
  }

  lemma SameSum(cfg: Config, c: Client, d: Client)
    requires Paced(cfg, c) && SameClock(c, d) && d.h.sent + d.rpsPending <= c.h.sent + c.rpsPending
    ensures Paced(cfg, d)
  {
  }

  lemma GoneClock(cfg: Config, s: Local, id: nat, success: bool, statusOk: bool)
    ensures var c := StreamGone(cfg, s, id, success, statusOk).c;
            SameClock(s.c, c) && c.rpsPending == s.c.rpsPending && c.h.sent == s.c.h.sent
  {
  }

  lemma ClosePaced(cfg: Config, s: Local, id: nat, success: bool, statusOk: bool, final: bool, o: Outcome)
    requires cfg.rps > 0.0 && Paced(cfg, s.c)
    ensures Paced(cfg, OnStreamClose(cfg, s, id, success, statusOk, final, o).c)
  {
    hide SubmitRequest;
    hide Paced;
    hide StreamGone;
    SubmitClock(cfg);
    GoneClock(cfg, s, id, success, statusOk);
    var t := OnStreamClose(cfg, s, id, success, statusOk, final, o);
    SameSum(cfg, s.c, t.c);
  }

  lemma MadePaced(cfg: Config, s: Local, now: real, os: seq<Outcome>)
    requires cfg.rps > 0.0
    ensures Paced(cfg, ConnectionMade(cfg, s, now, os).c)
  {
    hide SubmitRequest;
    SubmitClock(cfg);
  }

  lemma EventPaced(cfg: Config, s: Local, e: Event)
    requires cfg.rps > 0.0 && Enabled(cfg, s, e) && Paced(cfg, s.c)
    ensures Paced(cfg, ClientOp(cfg, s, e).c)
  {
    hide ConnectionMade;
    hide OnStreamClose;
    hide OnRpsTimer;
    match e
    case MadeEvent(now, os) => MadePaced(cfg, s, now, os);
    case CloseEvent(id, success, statusOk, final, o) => ClosePaced(cfg, s, id, success, statusOk, final, o);
    case TickEvent(now, os) => TickPaced(cfg, s, now, os);
    case _ =>
  }

  ghost predicate PacedWorker(cfg: Config, w: Worker) {
    forall i :: 0 <= i < |w.clients| ==> Paced(cfg, w.clients[i])
  }

  lemma {:induction false} RunPaced(cfg: Config, w: Worker, steps: seq<Step>)
    requires cfg.rps > 0.0 && PacedWorker(cfg, w) && ValidRun(cfg, w, steps)
    ensures PacedWorker(cfg, Run(cfg, w, steps))
    decreases |steps|
  {
    hide ClientOp;
    hide Paced;
    if steps != [] {
      var st := steps[0];
      if st.ClientStep? {
        EventPaced(cfg, LocalOf(w, st.i), st.e);
      }
      RunPaced(cfg, WorkerStep(cfg, w, st), steps[1..]);
    }
  }

  /** In every reachable state, for every connected client: since the connection was made at time t0, at
      most one request, plus those carried over, plus rate times the time from t0 to the last granting
      tick, plus one half, have been sent; and the timer has granted that many within one half. */
  lemma RateIsKept(cfg: Config, todos: seq<nat>, steps: seq<Step>, i: nat)
    requires ValidConfig(cfg) && cfg.rps > 0.0 && ValidRun(cfg, NewWorker(cfg, todos), steps)
    requires i < |Run(cfg, NewWorker(cfg, todos), steps).clients|
    ensures var c := Run(cfg, NewWorker(cfg, todos), steps).clients[i];
            c.conn == Connected ==>
              var expected := cfg.rps * (c.h.lastTick - c.h.connectedAt);
              && expected - 0.5 <= c.h.granted as real <= expected + 0.5
              && c.h.sent as real <= 1.0 + c.h.carried as real + expected + 0.5
              && 2 * |c.streams| <= cfg.maxStreams + 1
  {
    hide Run;
    var w0 := NewWorker(cfg, todos);
    NewWorkerPaced(cfg, todos);
    hide NewWorker;
    hide ValidRun;
    RunPaced(cfg, w0, steps);
    NewWorkerSound(cfg, todos);
    RunSound(cfg, w0, steps);
    var c := Run(cfg, w0, steps).clients[i];
    assert Paced(cfg, c) && Sound(cfg, c);
    if c.conn == Connected {
      SentIsBounded(cfg, c);
    }
  }

  lemma NewWorkerPaced(cfg: Config, todos: seq<nat>)
    ensures PacedWorker(cfg, NewWorker(cfg, todos))
  {
    var w := NewWorker(cfg, todos);
    assert forall k :: 0 <= k < |w.clients| ==> w.clients[k] == NewClient(if cfg.timingBased then 0 else todos[k]);
  }

  lemma SentIsBounded(cfg: Config, c: Client)
    requires c.conn == Connected && Paced(cfg, c)
    ensures c.h.sent as real <= 1.0 + c.h.carried as real + c.h.granted as real
  {
    assert c.h.sent <= 1 + c.h.carried + c.h.granted;
  }

  /** A client that does not reconnect carries nothing over. */
  ghost predicate NoCarry(c: Client) {
    c.h.carried == 0 && (c.conn != Connected && c.left > 0 ==> c.rpsPending == 0)
  }

  lemma EventNoCarry(cfg: Config, s: Local, e: Event)
    requires CountedConfig(cfg) && cfg.rps > 0.0 && s.phase == MainDuration && Counted(cfg, s.c)
    requires Enabled(cfg, s, e) && Plain(e) && NoCarry(s.c)
    ensures NoCarry(ClientOp(cfg, s, e).c)
  {
    hide SubmitRequest;
    hide SubmitLoop;
    SubmitClock(cfg);
    match e
    case TickEvent(now, os) =>
      if now - s.c.rpsStart >= 0.0 {
        var s1 := s.(c := Grant(cfg, s.c, now));
        var room := WrapSub(cfg.maxStreams, |s.c.streams|);
        LoopClock(cfg, s1, Min(Min(room, s.c.left), s1.c.rpsPending), os, 0);
      }
    case _ =>
  }

  lemma {:induction false} RunNoCarry(cfg: Config, w: Worker, steps: seq<Step>)
    requires CountedConfig(cfg) && cfg.rps > 0.0 && CountedWorker(cfg, w)
    requires ValidRun(cfg, w, steps) && forall st :: st in steps ==> PlainStep(st)
    requires forall i :: 0 <= i < |w.clients| ==> NoCarry(w.clients[i])
    ensures forall i :: 0 <= i < |Run(cfg, w, steps).clients| ==> NoCarry(Run(cfg, w, steps).clients[i])
    decreases |steps|
  {
    hide ClientOp;
    hide NoCarry;
    hide Counted;
    if steps != [] {
      var st := steps[0];
      assert st in steps && PlainStep(st);
      if st.ClientStep? {
        EventNoCarry(cfg, LocalOf(w, st.i), st.e);
      }
      StepCounted(cfg, w, st);
      RunNoCarry(cfg, WorkerStep(cfg, w, st), steps[1..]);
    }
  }

  /** For a client with a fixed number of requests and no reconnection this is the plain bound
      1 + rps * T + 1/2. */
  lemma RateIsKeptWithoutReconnection(cfg: Config, todos: seq<nat>, steps: seq<Step>, i: nat)
    requires CountedConfig(cfg) && cfg.rps > 0.0 && forall k :: 0 <= k < |todos| ==> 0 < todos[k] < WORD_LIMIT
    requires ValidRun(cfg, NewWorker(cfg, todos), steps) && forall st :: st in steps ==> PlainStep(st)
    requires i < |Run(cfg, NewWorker(cfg, todos), steps).clients|
    ensures var c := Run(cfg, NewWorker(cfg, todos), steps).clients[i];
            c.conn == Connected ==>
              c.h.sent as real <= 1.0 + cfg.rps * (c.h.lastTick - c.h.connectedAt) + 0.5
  {
    hide Run;
    var w0 := NewWorker(cfg, todos);
    assert forall k :: 0 <= k < |w0.clients| ==> w0.clients[k] == NewClient(todos[k]);
    NewWorkerCounted(cfg, todos);
    RunNoCarry(cfg, w0, steps);
    RateIsKept(cfg, todos, steps, i);
    assert NoCarry(Run(cfg, w0, steps).clients[i]);
  }

  // ---------------------------------------------------------------------------------------
  // The counter of paced requests
  // ---------------------------------------------------------------------------------------

  lemma {:induction false} LoopUnpaced(cfg: Config, s: Local, n: nat, os: seq<Outcome>, i: nat)
    ensures SubmitLoop(cfg, s, n, os, i, false).c.rpsInflight == s.c.rpsInflight
    decreases n
  {
    hide SubmitRequest;
    SubmitClock(cfg);
    if n > 0 {
      LoopUnpaced(cfg, SubmitRequest(cfg, s, Answer(os, i)).after, n - 1, os, i + 1);
    }
  }

  /** For every event: the counter goes up by one for the first request of a connection and for each request that a
      tick sends, and down by one, but not below zero, for each stream that closes while requests are counted. */
  lemma PacedCounter(cfg: Config, s: Local, e: Event)
    requires cfg.rps > 0.0 && Enabled(cfg, s, e)
    ensures var t := ClientOp(cfg, s, e);
            match e
            case MadeEvent(_, _) => t.c.rpsInflight == s.c.rpsInflight + 1
            case TickEvent(_, _) => t.c.rpsInflight - s.c.rpsInflight == t.c.h.sent - s.c.h.sent
            case CloseEvent(_, _, _, _, _) =>
              t.c.rpsInflight ==
                if (s.phase == MainDuration || s.phase == GracefulShutdown) && s.c.rpsInflight > 0
                then s.c.rpsInflight - 1 else s.c.rpsInflight
            case _ => t.c.rpsInflight == s.c.rpsInflight
  {
    hide SubmitRequest;
    hide SubmitLoop;
    SubmitClock(cfg);
    match e
    case TickEvent(now, os) => TickCounter(cfg, s, now, os);
    case _ =>
  }

  lemma TickCounter(cfg: Config, s: Local, now: real, os: seq<Outcome>)
    requires cfg.rps > 0.0
    ensures var t := OnRpsTimer(cfg, s, now, os); t.c.rpsInflight - s.c.rpsInflight == t.c.h.sent - s.c.h.sent
  {
    hide SubmitLoop;
    hide Round;
    if s.c.conn == Connected && s.c.left != 0 && now - s.c.rpsStart >= 0.0 {
      ElapsedNotNegative(cfg, s.c, now);
      var s1 := s.(c := Grant(cfg, s.c, now));
      var room := WrapSub(cfg.maxStreams, |s.c.streams|);
      var n := if cfg.timingBased then Max(room, s.c.left) else Min(room, s.c.left);
      LoopClock(cfg, s1, Min(n, s1.c.rpsPending), os, 0);
    }
  }
}
