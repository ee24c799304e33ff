/** The client object: the methods of `base_client` that move its counters, in the order in which the
    source updates its fields.  Each is proved to do what the function of the same name in
    `ClientLifecycle` says, and each handler of an event keeps the client valid, keeps the worker's totals in
    step with the client's, and, with a fixed number of requests and no reconnection, keeps the client's
    requests balanced and its in-flight counter exact.
 */
module BaseClient {

  import opened Basics
  import opened ClientLifecycle
  import opened ClientInvariants
  import opened CountedMode
  import opened Outcomes
  import Spec = ClientLifecycle

  /** The part of a worker that its clients write to. */
  class SharedWorker {
    var phase: Phase
    var stats: Stats

    constructor (phase: Phase, stats: Stats)
      ensures this.phase == phase && this.stats == stats
    {
      this.phase, this.stats := phase, stats;
    }

    /** duration_timeout_handler: whether the timer is started again. */
    method DurationTimeout(cfg: Config, ghost clients: seq<Spec.Client>) returns (again: bool)
      modifies this
      ensures Worker(phase, stats, clients, false, again)
              == OnDurationTimeout(cfg, Worker(old(phase), old(stats), clients, false, true))
    {
      if phase == MainDuration && cfg.hasScenarios {
        phase := GracefulShutdown;
        return true;
      }
      phase := DurationOver;
      return false;
    }
  }

  class Client {
    const cfg: Config
    const worker: SharedWorker
    var conn: ConnState
    var streams: set<nat>
    var eligible: set<nat>
    var nextId: nat
    var todo: nat
    var left: nat
    var inflight: nat
    var started: nat
    var done: nat
    var rpsPending: nat
    var rpsInflight: nat
    var rpsStart: real
    ghost var h: History

    ghost function View(): Local
      reads this, worker
    {
      Local(worker.phase, worker.stats,
            Spec.Client.Client(conn, streams, eligible, nextId, todo, left, inflight, started, done,
                               rpsPending, rpsInflight, rpsStart, h))
    }

    /** Streams only on a connection, at most half of the maximum open, started requests accounted for. */
    ghost predicate Valid()
      reads this, worker
    {
      Sound(cfg, View().c)
    }

    /** In a counted run: done, open, left and given-up requests make up the share, and the in-flight counter
        is the number of open streams. */
    ghost predicate CountsExactly()
      reads this, worker
    {
      CountedConfig(cfg) && worker.phase == MainDuration && Counted(cfg, View().c)
    }

    constructor (cfg: Config, worker: SharedWorker, todo: nat)
      ensures this.cfg == cfg && this.worker == worker
      ensures View().c == NewClient(todo) && Valid()
      ensures CountedConfig(cfg) && worker.phase == MainDuration && 0 < todo < WORD_LIMIT ==> CountsExactly()
    {
      this.cfg, this.worker := cfg, worker;
      conn, streams, eligible, nextId := Idle, {}, {}, 1;
      this.todo, left, inflight, started, done := todo, todo, 0, 0, 0;
      rpsPending, rpsInflight, rpsStart := 0, 0, 0.0;
      h := History(0, 0, 0, 0, 0, 0.0, 0.0);
      new;
      if todo == 0 {
        left := 1;
      }
    }

    method ShouldReconnect() returns (b: bool)
      ensures b == Spec.ShouldReconnect(cfg, View())
    {
      b := !(left == 0 || worker.phase.Rank() > MainDuration.Rank()) && cfg.retry;
    }

    method ProcessRequestFailure(code: Outcome)
      modifies this, worker
      ensures View() == Spec.ProcessRequestFailure(cfg, old(View()), code)
      ensures old(Valid()) ==> Valid() && InStep(old(View()), View())
    {
      if Valid() {
        FailureSound(cfg, View(), code);
      }
      hide Sound;
      hide InStep;
      if worker.phase != MainDuration {
        return;
      }
      var st := worker.stats;
      worker.stats := st.(failed := st.failed + left, error := st.error + left);
      h := h.(abandoned := h.abandoned + left);
      if code == Exhausted {
        return;
      }
      var again := ShouldReconnect();
      if !again {
        left := 0;
      }
    }

    method OnRequestStart()
      modifies this
      ensures View() == old(View()).(c := OpenStream(old(View()).phase, old(View()).c))
    {
      streams := streams + {nextId};
      if worker.phase == MainDuration || worker.phase == GracefulShutdown {
        eligible := eligible + {nextId};
      }
      nextId := nextId + 2;
      h := h.(sent := h.sent + 1);
    }

    method SubmitRequest(o: Outcome) returns (ok: bool)
      modifies this, worker
      ensures View() == Spec.SubmitRequest(cfg, old(View()), o).after
      ensures ok == Spec.SubmitRequest(cfg, old(View()), o).ok
      ensures old(Valid() && conn == Connected) ==> Valid() && InStep(old(View()), View())
    {
      if Valid() && conn == Connected {
        SubmitSound(cfg, View(), o);
      }
      hide Sound;
      hide InStep;
      if cfg.maxStreams <= |streams| + |streams| {
        return false;
      }
      if worker.phase == GracefulShutdown {
        return false;
      }
      if o != Opened {
        ProcessRequestFailure(o);
        return false;
      }
      OnRequestStart();
      if worker.phase != MainDuration {
        return true;
      }
      worker.stats := worker.stats.(started := worker.stats.started + 1);
      started := started + 1;
      inflight := inflight + 1;
      if !cfg.timingBased {
        left := WrapDec(left);
      }
      return true;
    }

    /** The submission loop of connection_made and, when `paced`, of on_rps_timer. */
    method SubmitUpTo(nreq: nat, answers: seq<Outcome>, paced: bool)
      modifies this, worker
      ensures View() == SubmitLoop(cfg, old(View()), nreq, answers, 0, paced)
    {
      hide Spec.SubmitRequest;
      var n, i := nreq, 0;
      while n > 0
        invariant 0 <= n && 0 <= i
        invariant SubmitLoop(cfg, View(), n, answers, i, paced) == SubmitLoop(cfg, old(View()), nreq, answers, 0, paced)
      {
        var ok := SubmitRequest(Answer(answers, i));
        if !ok {
          break;
        }
        if paced {
          rpsInflight := rpsInflight + 1;
          rpsPending := WrapDec(rpsPending);
        }
        n, i := n - 1, i + 1;
      }
    }

    method BeginConnection()
      modifies this`conn, this`nextId, this`h
      ensures View() == old(View()).(c := FreshConnection(old(View()).c))
    {
      conn, nextId := Connected, 1;
      h := h.(sent := 0);
    }

    method BeginPacing(now: real)
      modifies this`rpsStart, this`rpsInflight, this`h
      ensures View() == old(View()).(c := StartClock(old(View()).c, now))
    {
      rpsStart := now;
      rpsInflight := rpsInflight + 1;
      h := h.(carried := rpsPending, granted := 0, connectedAt := now, lastTick := now);
    }

    method ConnectionMade(now: real, answers: seq<Outcome>)
      requires Valid() && conn == Connecting
      modifies this, worker
      ensures View() == Spec.ConnectionMade(cfg, old(View()), now, answers)
      ensures Valid() && InStep(old(View()), View())
      ensures old(CountsExactly()) && Plain(MadeEvent(now, answers)) ==> CountsExactly()
    {
      MadeKeeps(cfg, View(), now, answers);
      hide Sound;
      hide Counted;
      hide InStep;
      hide CountedConfig;
      hide Spec.SubmitRequest;
      hide SubmitLoop;
      hide FreshConnection;
      hide StartClock;
      BeginConnection();
      if cfg.rps > 0.0 {
        BeginPacing(now);
        var _ := SubmitRequest(Answer(answers, 0));
      } else {
        var n := if cfg.timingBased then Max(left, cfg.maxStreams) else Min(left, cfg.maxStreams);
        SubmitUpTo(n, answers, false);
      }
    }

    /** The part of on_rps_timer that looks at the clock. */
    method GrantUntil(now: real)
      requires cfg.rps > 0.0 && now >= rpsStart
      modifies this`rpsPending, this`rpsStart, this`h
      ensures View() == old(View()).(c := Grant(cfg, old(View()).c, now))
    {
      var d := now - rpsStart;
      assert d * cfg.rps >= 0.0;
      var n := Round(d * cfg.rps);
      assert n == Grant(cfg, old(View()).c, now).rpsPending;
      rpsPending := n;
      rpsStart := rpsStart + n as real / cfg.rps;
      h := h.(granted := h.granted + n, lastTick := now);
    }

    method OnRpsTimer(now: real, answers: seq<Outcome>)
      requires cfg.rps > 0.0
      requires Valid()
      modifies this, worker
      ensures View() == Spec.OnRpsTimer(cfg, old(View()), now, answers)
      ensures Valid() && InStep(old(View()), View())
      ensures old(CountsExactly()) && Plain(TickEvent(now, answers)) ==> CountsExactly()
    {
      EventKeeps(cfg, View(), TickEvent(now, answers));
      hide Sound;
      hide Counted;
      hide InStep;
      hide SubmitLoop;
      hide Grant;
      if conn != Connected {
        return;
      }
      if left == 0 {
        return;
      }
      var d := now - rpsStart;
      if d < 0.0 {
        return;
      }
      GrantUntil(now);
      GrantKeepsRest(cfg, old(View()).c, now);
      if rpsPending == 0 {
        return;
      }
      var nreq := WrapSub(cfg.maxStreams, |streams|);
      if nreq == 0 {
        return;
      }
      nreq := if cfg.timingBased then Max(nreq, left) else Min(nreq, left);
      nreq := Min(nreq, rpsPending);
      SubmitUpTo(nreq, answers, true);
    }

    /** The statistics of a finished request. */
    method CountFinished(success: bool, statusOk: bool)
      modifies this, worker
      ensures View() == CountDone(old(View()), success, statusOk)
      ensures worker.stats.done == old(worker.stats).done + 1 && done == old(done) + 1
      ensures worker.stats.success == old(worker.stats).success + if success then 1 else 0
      ensures worker.stats.statusSuccess == old(worker.stats).statusSuccess + if success && statusOk then 1 else 0
      ensures worker.stats.failed == old(worker.stats).failed + if success && statusOk then 0 else 1
      ensures worker.stats.error == old(worker.stats).error + if success then 0 else 1
    {
      var st := worker.stats;
      if success {
        st := st.(success := st.success + 1);
        if statusOk {
          st := st.(statusSuccess := st.statusSuccess + 1);
        } else {
          st := st.(failed := st.failed + 1);
        }
      } else {
        st := st.(failed := st.failed + 1, error := st.error + 1);
      }
      worker.stats := st.(done := st.done + 1);
      done := done + 1;
    }

    method Erase(id: nat, ghost counted: bool)
      modifies this
      ensures View() == old(View()).(c := EraseStream(old(View()).c, id, counted))
    {
      if id in eligible && !counted {
        h := h.(discarded := h.discarded + 1);
      }
      streams := streams - {id};
      eligible := eligible - {id};
    }

    /** The counters of on_stream_close, before the client considers another request. */
    method CloseCounters(id: nat, success: bool, statusOk: bool) returns (known: bool)
      modifies this, worker
      ensures View() == StreamGone(cfg, old(View()), id, success, statusOk)
      ensures known <==> !Counting(old(View()).phase) || id in old(streams)
    {
      hide EraseStream;
      hide CountDone;
      if worker.phase != MainDuration && worker.phase != GracefulShutdown {
        Erase(id, false);
        return true;
      }
      if inflight > 0 {
        inflight := inflight - 1;
      }
      if cfg.rps > 0.0 && rpsInflight > 0 {
        rpsInflight := rpsInflight - 1;
      }
      if id !in streams {
        return false;
      }
      if id in eligible {
        CountFinished(success, statusOk);
      }
      Erase(id, true);
      return true;
    }

    method Refill(final: bool, answer: Outcome)
      modifies this, worker
      ensures View() == Spec.Refill(cfg, old(View()), final, answer)
    {
      if !final && left > 0 {
        if cfg.rps == 0.0 {
          var _ := SubmitRequest(answer);
        } else if rpsPending > 0 {
          PendingKept(cfg, View(), answer);
          var ok := SubmitRequest(answer);
          if ok {
            rpsPending := rpsPending - 1;
          }
        }
      }
    }

    method OnStreamClose(id: nat, success: bool, statusOk: bool, final: bool, answer: Outcome)
      requires Valid() && conn == Connected
      modifies this, worker
      ensures View() == Spec.OnStreamClose(cfg, old(View()), id, success, statusOk, final, answer)
      ensures Valid() && InStep(old(View()), View())
      ensures id in old(streams) && old(CountsExactly()) && Plain(CloseEvent(id, success, statusOk, final, answer)) ==>
                CountsExactly()
      ensures MovedBy(old(View()), View(), TallyOf(cfg, old(View()), CloseEvent(id, success, statusOk, final, answer)))
    {
      CloseKeeps(cfg, View(), id, success, statusOk, final, answer);
      CloseMoves(cfg, View(), id, success, statusOk, final, answer);
      hide MovedBy;
      hide TallyOf;
      hide Sound;
      hide Counted;
      hide InStep;
      hide CountedConfig;
      hide Spec.Refill;
      hide StreamGone;
      var known := CloseCounters(id, success, statusOk);
      if !known {
        return;
      }
      if left == 0 && inflight == 0 {
        return;
      }
      Refill(final, answer);
    }

    method Disconnect()
      modifies this
      ensures View() == Spec.Disconnect(old(View()))
      ensures old(Valid()) ==> Valid() && InStep(old(View()), View())
    {
      if Valid() {
        DropSound(cfg, View());
      }
      hide Sound;
      hide InStep;
      h := h.(discarded := h.discarded + |eligible|);
      streams, eligible := {}, {};
      conn := Idle;
    }

    method ProcessAbandonedStreams()
      modifies this, worker
      ensures View() == Spec.ProcessAbandonedStreams(cfg, old(View()))
      ensures old(Valid()) ==> Valid() && InStep(old(View()), View())
    {
      if Valid() {
        AbandonSound(cfg, View());
      }
      hide Sound;
      hide InStep;
      if worker.phase != MainDuration {
        return;
      }
      var abandoned := inflight;
      var again := ShouldReconnect();
      if !again {
        abandoned := abandoned + left;
        left := 0;
      }
      var st := worker.stats;
      worker.stats := st.(failed := st.failed + abandoned, error := st.error + abandoned);
      h := h.(abandoned := h.abandoned + abandoned);
      inflight := 0;
    }

    method Fail()
      requires Valid()
      modifies this, worker
      ensures View() == Spec.Fail(cfg, old(View()))
      ensures Valid() && InStep(old(View()), View())
      ensures old(CountsExactly()) ==> CountsExactly()
    {
      EventKeeps(cfg, View(), FailEvent);
      hide Sound;
      hide Counted;
      hide InStep;
      Disconnect();
      ProcessAbandonedStreams();
    }

    method HandleConnectionError()
      requires Valid()
      modifies this, worker
      ensures View() == ConnectionError(cfg, old(View()))
      ensures Valid() && InStep(old(View()), View())
      ensures old(CountsExactly()) ==> CountsExactly()
    {
      EventKeeps(cfg, View(), ErrorEvent);
      hide Sound;
      hide Counted;
      hide InStep;
      hide Spec.Fail;
      Fail();
      Fail();
      var again := ShouldReconnect();
      if again {
        conn := Connecting;
      }
    }

    method Timeout()
      requires Valid()
      modifies this, worker
      ensures View() == Spec.Timeout(cfg, old(View()))
      ensures Valid() && InStep(old(View()), View())
      ensures old(CountsExactly()) ==> CountsExactly()
    {
      TimeoutKeeps(cfg, View());
      hide CountedConfig;
      hide Spec.ProcessAbandonedStreams;
      hide Spec.Disconnect;
      hide Sound;
      hide Counted;
      hide InStep;
      var again := ShouldReconnect();
      if again {
        return;
      }
      if worker.phase == MainDuration {
        worker.stats := worker.stats.(timedout := worker.stats.timedout + inflight);
      }
      ProcessAbandonedStreams();
      Disconnect();
    }

    /** on_prefered_host_up, and the restart of an exhausted session: the counters are not touched. */
    method SwitchConnection()
      requires Valid() && conn == Connected
      modifies this
      ensures View() == Spec.SwitchConnection(old(View()))
      ensures Valid() && InStep(old(View()), View())
    {
      EventSound(cfg, View(), SwitchEvent);
      hide Sound;
      hide InStep;
      Disconnect();
      conn := Connecting;
    }

    method Connect() returns (ok: bool)
      requires Valid() && conn == Idle
      modifies this, worker
      ensures View() == Spec.Connect(cfg, old(View()))
      ensures ok <==> !IsTestFinished(old(View()))
      ensures Valid() && InStep(old(View()), View())
      ensures old(CountsExactly()) ==> CountsExactly()
    {
      EventKeeps(cfg, View(), ConnectEvent);
      hide Sound;
      hide Counted;
      hide InStep;
      if left == 0 || worker.phase.Rank() > MainDuration.Rank() {
        return false;
      }
      if cfg.timingBased && worker.phase == InitialIdle {
        worker.phase := WarmUp;
      }
      conn := Connecting;
      return true;
    }
  }

  /** What every event of a client keeps. */
  lemma EventKeeps(cfg: Config, s: Local, e: Event)
    requires Sound(cfg, s.c) && Enabled(cfg, s, e)
    ensures Sound(cfg, ClientOp(cfg, s, e).c) && InStep(s, ClientOp(cfg, s, e))
    ensures CountedConfig(cfg) && s.phase == MainDuration && Counted(cfg, s.c) && Plain(e) ==>
              Counted(cfg, ClientOp(cfg, s, e).c) && ClientOp(cfg, s, e).phase == MainDuration
  {
    hide ClientOp;
    EventSound(cfg, s, e);
    if CountedConfig(cfg) && s.phase == MainDuration && Counted(cfg, s.c) && Plain(e) {
      EventCounted(cfg, s, e);
    }
  }

  lemma MadeKeeps(cfg: Config, s: Local, now: real, os: seq<Outcome>)
    requires Sound(cfg, s.c) && s.c.conn == Connecting
    ensures var t := Spec.ConnectionMade(cfg, s, now, os);
            && Sound(cfg, t.c) && InStep(s, t)
            && (CountedConfig(cfg) && s.phase == MainDuration && Counted(cfg, s.c) && Plain(MadeEvent(now, os)) ==>
                  Counted(cfg, t.c) && t.phase == MainDuration)
  {
    EventKeeps(cfg, s, MadeEvent(now, os));
  }

  lemma CloseKeeps(cfg: Config, s: Local, id: nat, success: bool, statusOk: bool, final: bool, o: Outcome)
    requires Sound(cfg, s.c) && s.c.conn == Connected
    ensures var t := Spec.OnStreamClose(cfg, s, id, success, statusOk, final, o);
            && Sound(cfg, t.c) && InStep(s, t)
            && (id in s.c.streams && CountedConfig(cfg) && s.phase == MainDuration && Counted(cfg, s.c)
                && Plain(CloseEvent(id, success, statusOk, final, o)) ==>
                  Counted(cfg, t.c) && t.phase == MainDuration)
  {
    CloseSound(cfg, s, id, success, statusOk, final, o);
    if id in s.c.streams {
      EventKeeps(cfg, s, CloseEvent(id, success, statusOk, final, o));
    }
  }

  lemma TimeoutKeeps(cfg: Config, s: Local)
    requires Sound(cfg, s.c)
    ensures var t := Spec.Timeout(cfg, s);
            && Sound(cfg, t.c) && InStep(s, t)
            && (CountedConfig(cfg) && s.phase == MainDuration && Counted(cfg, s.c) ==>
                  Counted(cfg, t.c) && t.phase == MainDuration)
  {
    EventKeeps(cfg, s, TimeoutEvent);
  }

  lemma GrantKeepsRest(cfg: Config, c: Spec.Client, now: real)
    requires cfg.rps > 0.0 && now >= c.rpsStart
    ensures Grant(cfg, c, now).streams == c.streams && Grant(cfg, c, now).left == c.left
  {
  }

  lemma PendingKept(cfg: Config, s: Local, o: Outcome)
    ensures Spec.SubmitRequest(cfg, s, o).after.c.rpsPending == s.c.rpsPending
  {
  }
}
