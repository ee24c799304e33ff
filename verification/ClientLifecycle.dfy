/** The life of a load-generating client: submitting requests, closing streams, losing the connection,
    pacing by a timer, and the phases of a timed test.

    A client is modelled with one connection and an abstract HTTP/2 session: a submission is refused
    before a stream exists, or opens one new stream.  The functions of this module say what each
    operation of `base_client` does to the client, to the statistics its worker shares among all its
    clients, and to the worker's phase.
 */
module ClientLifecycle {

  import opened Basics

  datatype Phase = InitialIdle | WarmUp | MainDuration | GracefulShutdown | DurationOver {
    function Rank(): nat {
      match this
      case InitialIdle => 0
      case WarmUp => 1
      case MainDuration => 2
      case GracefulShutdown => 3
      case DurationOver => 4
    }
  }

  /** `retry` is connection_retry_on_disconnect. */
  datatype Config = Config(timingBased: bool, retry: bool, rps: real, maxStreams: nat, hasScenarios: bool)

  /** The checks of `main`, and sizes that fit a machine word. */
  predicate ValidConfig(cfg: Config) {
    0 < cfg.maxStreams < WORD_LIMIT && cfg.rps >= 0.0
  }

  datatype Stats = Stats(
    todo: nat, started: nat, done: nat, success: nat, statusSuccess: nat, failed: nat, error: nat, timedout: nat)

  /** History, kept for the statements below only: requests charged as failed in bulk; eligible streams
      that vanished uncounted; streams opened on this connection; requests left pending when it was
      made and requests granted by the timer since; when it was made; the last tick that granted. */
  datatype History = History(
    abandoned: nat, discarded: nat, sent: nat, carried: nat, granted: nat, connectedAt: real, lastTick: real)

  /** `eligible` are the open streams that count for the statistics. */
  datatype Client = Client(
    conn: ConnState, streams: set<nat>, eligible: set<nat>, nextId: nat,
    todo: nat, left: nat, inflight: nat, started: nat, done: nat,
    rpsPending: nat, rpsInflight: nat, rpsStart: real, h: History)

  /** What one operation of a client can touch. */
  datatype Local = Local(phase: Phase, stats: Stats, c: Client)

  /** What the session answers to a submission; `Exhausted` is MAX_STREAM_TO_BE_EXHAUSTED. */
  datatype Outcome = Opened | Refused | Exhausted

  datatype Submission = Submission(after: Local, ok: bool)

  // ---------------------------------------------------------------------------------------
  // Small pieces
  // ---------------------------------------------------------------------------------------

  /** Unsigned decrement and subtraction. */
  function WrapDec(x: nat): nat { if x == 0 then WORD_LIMIT - 1 else x - 1 }
  function WrapSub(x: nat, y: nat): nat { if y <= x then x - y else (x - y) % WORD_LIMIT }

  /** round() of a non-negative number. */
  function Round(x: real): (n: nat)
    requires x >= 0.0
    ensures x - 0.5 <= n as real <= x + 0.5
  {
    (x + 0.5).Floor
  }

  /** A client is created with its share of the requests; none means no bound. */
  function NewClient(todo: nat): Client {
    Client(Idle, {}, {}, 1, todo, if todo == 0 then 1 else todo, 0, 0, 0, 0, 0, 0.0,
           History(0, 0, 0, 0, 0, 0.0, 0.0))
  }

  predicate IsTestFinished(s: Local) {
    s.c.left == 0 || s.phase.Rank() > MainDuration.Rank()
  }

  predicate ShouldReconnect(cfg: Config, s: Local) {
    !IsTestFinished(s) && cfg.retry
  }

  /** get_total_pending_streams: a controlling client is itself one of its `dest_clients`, so its
      own streams are counted twice. */
  function TotalPendingStreams(c: Client): nat {
    |c.streams| + |c.streams|
  }

  /** n requests are given up at once. */
  function ChargeFailed(s: Local, n: nat): Local {
    s.(stats := s.stats.(failed := s.stats.failed + n, error := s.stats.error + n),
       c := s.c.(h := s.c.h.(abandoned := s.c.h.abandoned + n)))
  }

  // ---------------------------------------------------------------------------------------
  // Submitting
  // ---------------------------------------------------------------------------------------

  function ProcessRequestFailure(cfg: Config, s: Local, o: Outcome): Local {
    if s.phase != MainDuration then s
    else
      var s1 := ChargeFailed(s, s.c.left);
      if o == Exhausted || ShouldReconnect(cfg, s1) then s1
      else s1.(c := s1.c.(left := 0))
  }

  /** on_request_start. */
  function OpenStream(phase: Phase, c: Client): Client {
    var counts := phase == MainDuration || phase == GracefulShutdown;
    c.(streams := c.streams + {c.nextId},
       eligible := if counts then c.eligible + {c.nextId} else c.eligible,
       nextId := c.nextId + 2, h := c.h.(sent := c.h.sent + 1))
  }

  function SubmitRequest(cfg: Config, s: Local, o: Outcome): Submission {
    if cfg.maxStreams <= TotalPendingStreams(s.c) then Submission(s, false)
    else if s.phase == GracefulShutdown then Submission(s, false)
    else if o != Opened then Submission(ProcessRequestFailure(cfg, s, o), false)
    else
      var s1 := s.(c := OpenStream(s.phase, s.c));
      if s.phase != MainDuration then Submission(s1, true)
      else
        Submission(
          s1.(stats := s1.stats.(started := s1.stats.started + 1),
              c := s1.c.(started := s1.c.started + 1, inflight := s1.c.inflight + 1,
                         left := if cfg.timingBased then s1.c.left else WrapDec(s1.c.left))),
          true)
  }

  /** The i-th answer of the session; a session that has no more answers refuses. */
  function Answer(os: seq<Outcome>, i: nat): Outcome {
    if i < |os| then os[i] else Refused
  }

  /** Up to n submissions, until one fails.  When `paced`, each takes one pending request. */
  function SubmitLoop(cfg: Config, s: Local, n: nat, os: seq<Outcome>, i: nat, paced: bool): Local
    decreases n
  {
    if n == 0 then s
    else
      var r := SubmitRequest(cfg, s, Answer(os, i));
      if !r.ok then r.after
      else SubmitLoop(cfg, if paced then TakePending(r.after) else r.after, n - 1, os, i + 1, paced)
  }

  function TakePending(s: Local): Local {
    s.(c := s.c.(rpsInflight := s.c.rpsInflight + 1, rpsPending := WrapDec(s.c.rpsPending)))
  }

  /** A new connection numbers its streams from the start. */
  function FreshConnection(c: Client): Client {
    c.(conn := Connected, nextId := 1, h := c.h.(sent := 0))
  }

  /** The rate timer starts, and the first request counts as in flight. */
  function StartClock(c: Client, now: real): Client {
    c.(rpsStart := now, rpsInflight := c.rpsInflight + 1,
       h := c.h.(carried := c.rpsPending, granted := 0, connectedAt := now, lastTick := now))
  }

  /** connection_made; `now` is the clock. */
  function ConnectionMade(cfg: Config, s: Local, now: real, os: seq<Outcome>): Local {
    var s1 := s.(c := FreshConnection(s.c));
    if cfg.rps > 0.0 then SubmitRequest(cfg, s1.(c := StartClock(s1.c, now)), Answer(os, 0)).after
    else
      var n := if cfg.timingBased then Max(s.c.left, cfg.maxStreams) else Min(s.c.left, cfg.maxStreams);
      SubmitLoop(cfg, s1, n, os, 0, false)
  }

  // ---------------------------------------------------------------------------------------
  // Pacing
  // ---------------------------------------------------------------------------------------

  /** The part of on_rps_timer that looks at the clock: n requests are granted and the start of the
      next interval moves by exactly n / rps. */
  function Grant(cfg: Config, c: Client, now: real): Client
    requires cfg.rps > 0.0 && now >= c.rpsStart
  {
    var n := Round((now - c.rpsStart) * cfg.rps);
    c.(rpsPending := n, rpsStart := c.rpsStart + n as real / cfg.rps,
       h := c.h.(granted := c.h.granted + n, lastTick := now))
  }

  function OnRpsTimer(cfg: Config, s: Local, now: real, os: seq<Outcome>): Local
    requires cfg.rps > 0.0
  {
    if s.c.conn != Connected || s.c.left == 0 || now - s.c.rpsStart < 0.0 then s
    else
      var s1 := s.(c := Grant(cfg, s.c, now));
      var room := WrapSub(cfg.maxStreams, |s.c.streams|);
      if s1.c.rpsPending == 0 || room == 0 then s1
      else
        var n := if cfg.timingBased then Max(room, s.c.left) else Min(room, s.c.left);
        SubmitLoop(cfg, s1, Min(n, s1.c.rpsPending), os, 0, true)
  }

  // ---------------------------------------------------------------------------------------
  // Closing a stream
  // ---------------------------------------------------------------------------------------

  /** The statistics of a finished request. */
  function CountDone(s: Local, success: bool, statusOk: bool): Local {
    var st := s.stats;
    var st1 :=
      if !success then st.(failed := st.failed + 1, error := st.error + 1)
      else if statusOk then st.(success := st.success + 1, statusSuccess := st.statusSuccess + 1)
      else st.(success := st.success + 1, failed := st.failed + 1);
    s.(stats := st1.(done := st1.done + 1), c := s.c.(done := s.c.done + 1))
  }

  predicate Counting(phase: Phase) {
    phase == MainDuration || phase == GracefulShutdown
  }

  /** The in-flight counters go down by one, but not below zero. */
  function LessInflight(cfg: Config, c: Client): Client {
    c.(inflight := if c.inflight > 0 then c.inflight - 1 else 0,
       rpsInflight := if cfg.rps > 0.0 && c.rpsInflight > 0 then c.rpsInflight - 1 else c.rpsInflight)
  }

  function EraseStream(c: Client, id: nat, counted: bool): Client {
    c.(streams := c.streams - {id}, eligible := c.eligible - {id},
       h := c.h.(discarded := c.h.discarded + if id in c.eligible && !counted then 1 else 0))
  }

  /** on_stream_close up to the point where the stream is gone. */
  function StreamGone(cfg: Config, s: Local, id: nat, success: bool, statusOk: bool): Local {
    if !Counting(s.phase) then s.(c := EraseStream(s.c, id, false))
    else
      var s1 := s.(c := LessInflight(cfg, s.c));
      if id !in s.c.streams then s1
      else
        var s2 := if id in s.c.eligible then CountDone(s1, success, statusOk) else s1;
        s2.(c := EraseStream(s2.c, id, true))
  }

  /** The whole of on_stream_close: the closed stream makes room for another request. */
  function OnStreamClose(cfg: Config, s: Local, id: nat, success: bool, statusOk: bool, final: bool, o: Outcome): Local {
    var s1 := StreamGone(cfg, s, id, success, statusOk);
    if Counting(s.phase) && id !in s.c.streams then s1
    else if s1.c.left == 0 && s1.c.inflight == 0 then s1
    else Refill(cfg, s1, final, o)
  }

  /** The request that takes the place of a closed stream. */
  function Refill(cfg: Config, s: Local, final: bool, o: Outcome): Local {
    if final || s.c.left == 0 then s
    else if cfg.rps == 0.0 then SubmitRequest(cfg, s, o).after
    else if s.c.rpsPending > 0 then
      var r := SubmitRequest(cfg, s, o);
      if r.ok then r.after.(c := r.after.c.(rpsPending := r.after.c.rpsPending - 1)) else r.after
    else s
  }

  // ---------------------------------------------------------------------------------------
  // Losing and making connections
  // ---------------------------------------------------------------------------------------

  /** disconnect: the session and all its streams are gone. */
  function Disconnect(s: Local): Local {
    s.(c := s.c.(conn := Idle, streams := {}, eligible := {},
                 h := s.c.h.(discarded := s.c.h.discarded + |s.c.eligible|)))
  }

  function ProcessAbandonedStreams(cfg: Config, s: Local): Local {
    if s.phase != MainDuration then s
    else if ShouldReconnect(cfg, s) then
      var s1 := ChargeFailed(s, s.c.inflight);
      s1.(c := s1.c.(inflight := 0))
    else
      var s1 := ChargeFailed(s, s.c.inflight + s.c.left);
      s1.(c := s1.c.(inflight := 0, left := 0))
  }

  function Fail(cfg: Config, s: Local): Local {
    ProcessAbandonedStreams(cfg, Disconnect(s))
  }

  /** handle_connection_error: try_again_or_fail, then fail, then reconnect_to_alt_addr. */
  function ConnectionError(cfg: Config, s: Local): Local {
    var s1 := Fail(cfg, Fail(cfg, s));
    if ShouldReconnect(cfg, s1) then s1.(c := s1.c.(conn := Connecting)) else s1
  }

  /** timeout: a connection that was idle for too long. */
  function Timeout(cfg: Config, s: Local): Local {
    if ShouldReconnect(cfg, s) then s
    else
      var s1 := if s.phase == MainDuration
                then s.(stats := s.stats.(timedout := s.stats.timedout + s.c.inflight)) else s;
      Disconnect(ProcessAbandonedStreams(cfg, s1))
  }

  /** connect: the first connection of a timed test starts the warm-up. */
  function Connect(cfg: Config, s: Local): Local {
    if IsTestFinished(s) then s
    else
      s.(phase := if cfg.timingBased && s.phase == InitialIdle then WarmUp else s.phase,
         c := s.c.(conn := Connecting))
  }

  /** on_prefered_host_up and the restart of a session that ran out of stream ids: the connection is
      replaced, and the in-flight counter is left as it is. */
  function SwitchConnection(s: Local): Local {
    var s1 := Disconnect(s);
    s1.(c := s1.c.(conn := Connecting))
  }

  // ---------------------------------------------------------------------------------------
  // Events, workers and runs
  // ---------------------------------------------------------------------------------------

  datatype Event =
    | ConnectEvent
    | MadeEvent(now: real, answers: seq<Outcome>)
    | CloseEvent(id: nat, success: bool, statusOk: bool, final: bool, answer: Outcome)
    | TickEvent(now: real, answers: seq<Outcome>)
    | ErrorEvent
    | TimeoutEvent
    | FailEvent
    | SwitchEvent

  /** When an event can happen: a session closes only streams it has open. */
  predicate Enabled(cfg: Config, s: Local, e: Event) {
    match e
    case ConnectEvent => s.c.conn == Idle
    case MadeEvent(_, _) => s.c.conn == Connecting
    case CloseEvent(id, _, _, _, _) => s.c.conn == Connected && id in s.c.streams
    case TickEvent(_, _) => cfg.rps > 0.0
    case SwitchEvent => s.c.conn == Connected
    case _ => true
  }

  function ClientOp(cfg: Config, s: Local, e: Event): Local
    requires Enabled(cfg, s, e)
  {
    match e
    case ConnectEvent => Connect(cfg, s)
    case MadeEvent(now, os) => ConnectionMade(cfg, s, now, os)
    case CloseEvent(id, success, statusOk, final, o) => OnStreamClose(cfg, s, id, success, statusOk, final, o)
    case TickEvent(now, os) => OnRpsTimer(cfg, s, now, os)
    case ErrorEvent => ConnectionError(cfg, s)
    case TimeoutEvent => Timeout(cfg, s)
    case FailEvent => Fail(cfg, s)
    case SwitchEvent => SwitchConnection(s)
  }

  /** A worker with its clients, and which of its two one-shot timers are running. */
  datatype Worker = Worker(phase: Phase, stats: Stats, clients: seq<Client>, warmupArmed: bool, durationArmed: bool)

  datatype Step = ClientStep(i: nat, e: Event) | WarmupTimeout | DurationTimeout

  predicate StepEnabled(cfg: Config, w: Worker, st: Step) {
    match st
    case ClientStep(i, e) => i < |w.clients| && Enabled(cfg, LocalOf(w, i), e)
    case WarmupTimeout => w.warmupArmed
    case DurationTimeout => w.durationArmed
  }

  function LocalOf(w: Worker, i: nat): Local
    requires i < |w.clients|
  {
    Local(w.phase, w.stats, w.clients[i])
  }

  /** duration_timeout_handler. */
  function OnDurationTimeout(cfg: Config, w: Worker): Worker {
    if w.phase == MainDuration && cfg.hasScenarios
    then w.(phase := GracefulShutdown, durationArmed := true)
    else w.(phase := DurationOver, durationArmed := false)
  }

  function WorkerStep(cfg: Config, w: Worker, st: Step): Worker
    requires StepEnabled(cfg, w, st)
  {
    match st
    case ClientStep(i, e) =>
      var s := ClientOp(cfg, LocalOf(w, i), e);
      w.(phase := s.phase, stats := s.stats, clients := w.clients[i := s.c],
         warmupArmed := w.warmupArmed || s.phase != w.phase)
    case WarmupTimeout => w.(phase := MainDuration, warmupArmed := false, durationArmed := true)
    case DurationTimeout => OnDurationTimeout(cfg, w)
  }

  function TodoOf(c: Client): nat { c.todo }
  function StartedOf(c: Client): nat { c.started }
  function DoneOf(c: Client): nat { c.done }

  function Sum(f: Client -> nat, cs: seq<Client>): nat {
    if cs == [] then 0 else f(cs[0]) + Sum(f, cs[1..])
  }

  lemma {:induction false} SumUpdate(f: Client -> nat, cs: seq<Client>, i: nat, c: Client)
    requires i < |cs|
    ensures Sum(f, cs[i := c]) + f(cs[i]) == Sum(f, cs) + f(c)
  {
    if i > 0 {
      assert cs[i := c][1..] == cs[1..][i - 1 := c];
      SumUpdate(f, cs[1..], i - 1, c);
    } else {
      assert cs[i := c][1..] == cs[1..];
    }
  }

  /** A worker before it has started anything; in a timed test no client has a number of requests. */
  function NewWorker(cfg: Config, todos: seq<nat>): Worker {
    var cs := seq(|todos|, i requires 0 <= i < |todos| => NewClient(if cfg.timingBased then 0 else todos[i]));
    Worker(if cfg.timingBased then InitialIdle else MainDuration,
           Stats(Sum(TodoOf, cs), 0, 0, 0, 0, 0, 0, 0), cs, false, false)
  }

  function Run(cfg: Config, w: Worker, steps: seq<Step>): Worker
    requires ValidRun(cfg, w, steps)
    decreases |steps|
  {
    if steps == [] then w else Run(cfg, WorkerStep(cfg, w, steps[0]), steps[1..])
  }

  predicate ValidRun(cfg: Config, w: Worker, steps: seq<Step>)
    decreases |steps|
  {
    steps == [] || (StepEnabled(cfg, w, steps[0]) && ValidRun(cfg, WorkerStep(cfg, w, steps[0]), steps[1..]))
  }
}
