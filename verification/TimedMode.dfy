/** Timed tests: nothing is counted before the warm-up is over, phases only move forward, and every
    request started in the main phase is accounted for.
 */
module TimedMode {

  import opened Basics
  import opened ClientLifecycle
  import opened ClientInvariants

  predicate TimedConfig(cfg: Config) {
    ValidConfig(cfg) && cfg.timingBased
  }

  /** What warmup_timeout_handler asserts of each client. */
  predicate Untouched(c: Client) {
    c.todo == 0 && c.left == 1 && c.inflight == 0 && c.started == 0 && c.done == 0
  }

  predicate BeforeMain(phase: Phase) {
    phase == InitialIdle || phase == WarmUp
  }

  /** No event before the main phase touches a counter. */
  lemma EventBeforeMain(cfg: Config, s: Local, e: Event)
    requires TimedConfig(cfg) && BeforeMain(s.phase) && Untouched(s.c) && Enabled(cfg, s, e)
    ensures var t := ClientOp(cfg, s, e); Untouched(t.c) && t.stats == s.stats && BeforeMain(t.phase)
  {
    hide SubmitLoop;
    hide SubmitRequest;
    SubmitBeforeMain(cfg);
    match e
    case MadeEvent(now, os) =>
      var c1 := s.c.(conn := Connected, nextId := 1, h := s.c.h.(sent := 0));
      LoopBeforeMain(cfg, s.(c := c1), Max(s.c.left, cfg.maxStreams), os, 0, false);
    case TickEvent(now, os) =>
      if now - s.c.rpsStart >= 0.0 {
        var s1 := s.(c := Grant(cfg, s.c, now));
        var room := WrapSub(cfg.maxStreams, |s.c.streams|);
        LoopBeforeMain(cfg, s1, Min(Max(room, s.c.left), s1.c.rpsPending), os, 0, true);
      }
    case _ =>
  }

  lemma SubmitBeforeMain(cfg: Config)
    ensures forall s: Local, o: Outcome :: BeforeMain(s.phase) && Untouched(s.c) ==>
              var t := SubmitRequest(cfg, s, o).after; Untouched(t.c) && t.stats == s.stats && t.phase == s.phase
  {
  }

  lemma {:induction false} LoopBeforeMain(cfg: Config, s: Local, n: nat, os: seq<Outcome>, i: nat, paced: bool)
    requires BeforeMain(s.phase) && Untouched(s.c)
    ensures var t := SubmitLoop(cfg, s, n, os, i, paced); Untouched(t.c) && t.stats == s.stats && t.phase == s.phase
    decreases n
  {
    hide SubmitRequest;
    SubmitBeforeMain(cfg);
    if n > 0 {
      var r := SubmitRequest(cfg, s, Answer(os, i));
      if r.ok {
        LoopBeforeMain(cfg, if paced then TakePending(r.after) else r.after, n - 1, os, i + 1, paced);
      }
    }
  }

  /** All assertions of warmup_timeout_handler. */
  predicate WarmupAsserts(w: Worker) {
    && w.stats.started == 0 && w.stats.done == 0
    && forall i :: 0 <= i < |w.clients| ==> Untouched(w.clients[i])
  }

  ghost predicate TimedWorker(cfg: Config, w: Worker) {
    SoundWorker(cfg, w) && (BeforeMain(w.phase) ==> WarmupAsserts(w))
  }

  lemma StepTimed(cfg: Config, w: Worker, st: Step)
    requires TimedConfig(cfg) && TimedWorker(cfg, w) && StepEnabled(cfg, w, st)
    ensures TimedWorker(cfg, WorkerStep(cfg, w, st))
  {
    hide ClientOp;
    hide SoundWorker;
    StepSound(cfg, w, st);
    match st
    case ClientStep(i, e) =>
      if BeforeMain(w.phase) {
        EventBeforeMain(cfg, LocalOf(w, i), e);
      }
    case _ =>
  }

  lemma {:induction false} RunTimed(cfg: Config, w: Worker, steps: seq<Step>)
    requires TimedConfig(cfg) && TimedWorker(cfg, w) && ValidRun(cfg, w, steps)
    ensures TimedWorker(cfg, Run(cfg, w, steps))
    decreases |steps|
  {
    hide TimedWorker;
    hide WorkerStep;
    if steps != [] {
      StepTimed(cfg, w, steps[0]);
      RunTimed(cfg, WorkerStep(cfg, w, steps[0]), steps[1..]);
    }
  }

  lemma NewWorkerTimed(cfg: Config, todos: seq<nat>)
    requires TimedConfig(cfg)
    ensures TimedWorker(cfg, NewWorker(cfg, todos))
  {
    NewWorkerSound(cfg, todos);
    var cs := NewWorker(cfg, todos).clients;
    assert forall i :: 0 <= i < |cs| ==> cs[i] == NewClient(0);
  }

  /** Whenever the warm-up timer can fire, its handler's assertions hold and the phase is WARM_UP. */
  lemma WarmupAssertsHold(cfg: Config, todos: seq<nat>, steps: seq<Step>)
    requires TimedConfig(cfg) && ValidRun(cfg, NewWorker(cfg, todos), steps)
    requires StepEnabled(cfg, Run(cfg, NewWorker(cfg, todos), steps), WarmupTimeout)
    ensures var w := Run(cfg, NewWorker(cfg, todos), steps); w.phase == WarmUp && WarmupAsserts(w)
  {
    hide NewWorker;
    hide Run;
    NewWorkerTimed(cfg, todos);
    RunTimed(cfg, NewWorker(cfg, todos), steps);
  }

  /** The phase never goes back, along any run and for any split of it. */
  lemma {:induction false} PhaseOnlyMovesForward(cfg: Config, todos: seq<nat>, first: seq<Step>, more: seq<Step>)
    requires ValidRun(cfg, NewWorker(cfg, todos), first)
    requires ValidRun(cfg, Run(cfg, NewWorker(cfg, todos), first), more)
    ensures var w := Run(cfg, NewWorker(cfg, todos), first);
            w.phase.Rank() <= Run(cfg, w, more).phase.Rank()
  {
    hide NewWorker;
    hide Run;
    NewWorkerSound(cfg, todos);
    RunSound(cfg, NewWorker(cfg, todos), first);
    RunSound(cfg, Run(cfg, NewWorker(cfg, todos), first), more);
  }

  function EligibleOf(c: Client): nat { |c.eligible| }
  function DiscardedOf(c: Client): nat { c.h.discarded }
  function AbandonedOf(c: Client): nat { c.h.abandoned }

  lemma {:induction false} SumOfThree(cfg: Config, cs: seq<Client>)
    requires forall i :: 0 <= i < |cs| ==> Sound(cfg, cs[i])
    ensures Sum(StartedOf, cs) == Sum(DoneOf, cs) + Sum(EligibleOf, cs) + Sum(DiscardedOf, cs)
  {
    if cs != [] {
      SumOfThree(cfg, cs[1..]);
    }
  }

  /** In every reachable state, in every mode: the requests started are those done, those open, and
      those discarded with their connection or after the test. */
  lemma StartedIsAccountedFor(cfg: Config, todos: seq<nat>, steps: seq<Step>)
    requires ValidRun(cfg, NewWorker(cfg, todos), steps)
    ensures var w := Run(cfg, NewWorker(cfg, todos), steps);
            w.stats.started == w.stats.done + Sum(EligibleOf, w.clients) + Sum(DiscardedOf, w.clients)
  {
    hide NewWorker;
    hide Run;
    NewWorkerSound(cfg, todos);
    RunSound(cfg, NewWorker(cfg, todos), steps);
    SumOfThree(cfg, Run(cfg, NewWorker(cfg, todos), steps).clients);
  }

  /** Nothing is discarded while the test is on and the connection stays. */
  lemma CloseDiscardsIff(cfg: Config, s: Local, id: nat, success: bool, statusOk: bool)
    ensures StreamGone(cfg, s, id, success, statusOk).c.h.discarded > s.c.h.discarded
            <==> id in s.c.eligible && !Counting(s.phase)
  {
  }

  // ---------------------------------------------------------------------------------------
  // What does not hold in timed tests
  // ---------------------------------------------------------------------------------------

  /** In the main phase a closing stream keeps the in-flight counter equal to the number of eligible
      streams if and only if it is eligible itself or nothing is in flight. */
  lemma CloseKeepsInflightIff(cfg: Config, s: Local, id: nat, success: bool, statusOk: bool)
    requires s.phase == MainDuration && id in s.c.streams && s.c.eligible <= s.c.streams
    requires s.c.inflight == |s.c.eligible|
    ensures var c := StreamGone(cfg, s, id, success, statusOk).c;
            c.inflight == |c.eligible| <==> id in s.c.eligible || s.c.inflight == 0
  {
    if id !in s.c.eligible {
      assert s.c.eligible - {id} == s.c.eligible;
    }
  }

  /** A stream opened in the warm-up and closed in the main phase takes another stream off the counter. */
  lemma WarmupStreamIsCountedOff()
    ensures var cfg := Config(true, false, 0.0, 4, false);
            var s1 := SubmitRequest(cfg, Local(WarmUp, Stats(0, 0, 0, 0, 0, 0, 0, 0),
                                               NewClient(0).(conn := Connected)), Opened).after;
            var s2 := SubmitRequest(cfg, s1.(phase := MainDuration), Opened).after;
            var s3 := StreamGone(cfg, s2, 1, true, true);
            s2.c.inflight == 1 && s3.c.inflight == 0 && s3.c.streams == s3.c.eligible == {3}
  {
  }
}
