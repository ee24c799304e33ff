/** A whole test with a fixed number of requests: the split over threads and clients, any run of every worker,
    and the final report.
 */
module WholeTest {

  import opened Basics
  import opened ClientLifecycle
  import opened ClientInvariants
  import opened CountedMode
  import Split = WorkSplit

  /** The request counts of the clients of one thread. */
  ghost function TodosOf(c: Split.Config, thread: nat): seq<nat>
    requires Split.Accepted(c) && thread < c.nthreads
  {
    Split.AcceptedSplit(c, thread);
    var clients := Split.Share(c.nclients, c.nthreads, thread);
    Split.Shares(Split.Share(c.nreqs, c.nthreads, thread), clients, clients)
  }

  /** Some run of every worker, in which no session is exhausted and no connection is switched. */
  ghost predicate Runs(c: Split.Config, cfg: Config, runs: seq<seq<Step>>)
    requires Split.Accepted(c)
  {
    && |runs| == c.nthreads
    && forall t :: 0 <= t < |runs| ==>
         ValidRun(cfg, NewWorker(cfg, TodosOf(c, t)), runs[t]) && forall st :: st in runs[t] ==> PlainStep(st)
  }

  /** The workers at the end of their runs. */
  ghost function Final(c: Split.Config, cfg: Config, runs: seq<seq<Step>>, t: nat): Worker
    requires Split.Accepted(c) && Runs(c, cfg, runs) && t < |runs|
  {
    Run(cfg, NewWorker(cfg, TodosOf(c, t)), runs[t])
  }

  ghost predicate AreStats(c: Split.Config, cfg: Config, runs: seq<seq<Step>>, ws: seq<Stats>)
    requires Split.Accepted(c) && Runs(c, cfg, runs)
  {
    |ws| == |runs| && forall t :: 0 <= t < |ws| ==> ws[t] == Final(c, cfg, runs, t).stats
  }

  ghost predicate AllFinished(w: Worker) {
    forall i :: 0 <= i < |w.clients| ==> Finished(w.clients[i])
  }

  lemma {:induction false} TodoSum(cs: seq<Client>, todos: seq<nat>)
    requires |cs| == |todos| && forall i :: 0 <= i < |cs| ==> cs[i].todo == todos[i]
    ensures Sum(TodoOf, cs) == Split.Sum(todos)
  {
    if cs != [] {
      var n := |cs| - 1;
      TodoSum(cs[..n], todos[..n]);
      SumLast(cs);
    }
  }

  lemma {:induction false} SumLast(cs: seq<Client>)
    requires cs != []
    ensures Sum(TodoOf, cs) == Sum(TodoOf, cs[..|cs| - 1]) + cs[|cs| - 1].todo
  {
    if |cs| == 1 {
      assert cs[1..] == [] && cs[..0] == [];
    } else {
      SumLast(cs[1..]);
      assert cs[1..][..|cs| - 2] == cs[..|cs| - 1][1..];
    }
  }

  /** One worker: its number of requests is the share of its thread, and its outcomes do not exceed it. */
  lemma WorkerOutcome(c: Split.Config, cfg: Config, runs: seq<seq<Step>>, t: nat)
    requires Split.Accepted(c) && c.nreqs < WORD_LIMIT && CountedConfig(cfg) && Runs(c, cfg, runs) && t < |runs|
    ensures var w := Final(c, cfg, runs, t);
            && w.stats.todo == Split.Share(c.nreqs, c.nthreads, t)
            && w.stats.statusSuccess + w.stats.failed <= w.stats.todo && w.stats.error <= w.stats.failed
            && (AllFinished(w) ==> w.stats.statusSuccess + w.stats.failed == w.stats.todo)
  {
    hide Run;
    hide ValidRun;
    var todos := TodosOf(c, t);
    Split.AcceptedSplit(c, t);
    TodosInRange(c, t);
    var w0 := NewWorker(cfg, todos);
    TodoSum(w0.clients, todos);
    NoRequestIsLost(cfg, todos, runs[t]);
    NewWorkerSound(cfg, todos);
    hide NewWorker;
    RunKeepsTodo(cfg, w0, runs[t]);
  }

  lemma TodosInRange(c: Split.Config, t: nat)
    requires Split.Accepted(c) && c.nreqs < WORD_LIMIT && t < c.nthreads
    ensures forall k :: 0 <= k < |TodosOf(c, t)| ==> 0 < TodosOf(c, t)[k] < WORD_LIMIT
  {
    Split.AcceptedSplit(c, t);
    var reqs, clients := Split.Share(c.nreqs, c.nthreads, t), Split.Share(c.nclients, c.nthreads, t);
    ShareAtMost(c.nreqs, c.nthreads, t);
    forall k | 0 <= k < |TodosOf(c, t)|
      ensures 0 < TodosOf(c, t)[k] < WORD_LIMIT
    {
      ShareAtMost(reqs, clients, k);
    }
  }

  lemma ShareAtMost(total: nat, n: nat, i: nat)
    requires n > 0
    ensures Split.Share(total, n, i) <= total
  {
    QuotientAtMost(total, n, total / n, total % n);
  }

  lemma QuotientAtMost(total: nat, n: nat, q: nat, r: nat)
    requires n > 0 && total == n * q + r
    ensures q + (if r > 0 then 1 else 0) <= total
  {
    Scaled(n, q);
  }

  lemma Scaled(n: nat, q: nat)
    requires n > 0
    ensures n * q >= q
  {
  }

  lemma {:induction false} TotalsOf(c: Split.Config, cfg: Config, runs: seq<seq<Step>>, ws: seq<Stats>, n: nat)
    requires Split.Accepted(c) && c.nreqs < WORD_LIMIT && CountedConfig(cfg) && Runs(c, cfg, runs)
    requires AreStats(c, cfg, runs, ws) && n <= |ws|
    ensures TotalTodo(ws[..n]) == Split.Sum(Split.Shares(c.nreqs, c.nthreads, n))
    ensures TotalSettled(ws[..n]) <= TotalTodo(ws[..n])
    ensures (forall t :: 0 <= t < |ws| ==> AllFinished(Final(c, cfg, runs, t))) ==>
              TotalSettled(ws[..n]) == TotalTodo(ws[..n])
    decreases n
  {
    hide Final;
    hide Runs;
    hide AllFinished;
    hide Split.Accepted;
    if n > 0 {
      TotalsOf(c, cfg, runs, ws, n - 1);
      var t := n - 1;
      WorkerOutcome(c, cfg, runs, t);
      assert ws[..n][..t] == ws[..t];
      AcceptedThreads(c);
      Split.Append(Split.Shares(c.nreqs, c.nthreads, t), Split.Share(c.nreqs, c.nthreads, t));
    }
  }

  lemma AcceptedThreads(c: Split.Config)
    requires Split.Accepted(c)
    ensures c.nthreads > 0
  {
  }

  lemma RunsLength(c: Split.Config, cfg: Config, runs: seq<seq<Step>>)
    requires Split.Accepted(c) && Runs(c, cfg, runs)
    ensures |runs| == c.nthreads
  {
  }

  /** For every accepted configuration and whatever the workers do, the report of main accounts for exactly the
      number of requests that was asked for; if all clients finished, none of them is added by the report. */
  method Report(ghost c: Split.Config, ghost cfg: Config, ghost runs: seq<seq<Step>>, ws: seq<Stats>)
    returns (todo: nat, statusSuccess: nat, failed: nat, error: nat)
    requires Split.Accepted(c) && c.nreqs < WORD_LIMIT && CountedConfig(cfg) && Runs(c, cfg, runs)
    requires AreStats(c, cfg, runs, ws)
    ensures todo == c.nreqs && statusSuccess + failed == c.nreqs && error <= failed
    ensures (forall t :: 0 <= t < |runs| ==> AllFinished(Final(c, cfg, runs, t))) ==> TotalSettled(ws) == c.nreqs
  {
    hide Final;
    hide Runs;
    TotalsOf(c, cfg, runs, ws, |ws|);
    assert ws[..|ws|] == ws;
    RunsLength(c, cfg, runs);
    Split.SharesSumUp(c.nreqs, c.nthreads);
    forall t | 0 <= t < |ws|
      ensures ws[t].statusSuccess + ws[t].failed <= ws[t].todo && ws[t].error <= ws[t].failed
    {
      WorkerOutcome(c, cfg, runs, t);
    }
    todo, statusSuccess, failed, error := FinalReport(ws);
  }
}
