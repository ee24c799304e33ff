/** How the requested number of requests and clients is divided over threads, and then over clients. */
module WorkSplit {

  /** The share of part `i` when `total` is dealt out to `n` parts, the remainder to the first ones. */
  function Share(total: nat, n: nat, i: nat): nat
    requires n > 0
  {
    total / n + if i < total % n then 1 else 0
  }

  ghost function Sum(s: seq<nat>): nat {
    if s == [] then 0 else Sum(s[..|s| - 1]) + s[|s| - 1]
  }

  ghost function Shares(total: nat, n: nat, k: nat): seq<nat>
    requires n > 0
  {
    if k == 0 then [] else Shares(total, n, k - 1) + [Share(total, n, k - 1)]
  }

  lemma {:induction false} SharesAre(total: nat, n: nat, k: nat)
    requires n > 0
    ensures |Shares(total, n, k)| == k
    ensures forall i :: 0 <= i < k ==> Shares(total, n, k)[i] == Share(total, n, i)
    decreases k
  {
    if k > 0 {
      SharesAre(total, n, k - 1);
    }
  }

  /** What the first `k` parts get. */
  ghost function FirstParts(q: nat, r: nat, k: nat): nat {
    k * q + if k < r then k else r
  }

  lemma OneMorePart(q: nat, r: nat, k: nat)
    ensures FirstParts(q, r, k + 1) == FirstParts(q, r, k) + q + if k < r then 1 else 0
  {
    assert (k + 1) * q == k * q + q;
  }

  lemma {:induction false} SumOfShares(total: nat, n: nat, k: nat)
    requires n > 0 && k <= n
    ensures Sum(Shares(total, n, k)) == FirstParts(total / n, total % n, k)
    decreases k
  {
    if k > 0 {
      hide FirstParts;
      SumOfShares(total, n, k - 1);
      Append(Shares(total, n, k - 1), Share(total, n, k - 1));
      OneMorePart(total / n, total % n, k - 1);
    }
  }

  lemma Append(s: seq<nat>, x: nat)
    ensures Sum(s + [x]) == Sum(s) + x
  {
    assert (s + [x])[..|s|] == s;
  }

  /** Nothing is lost or added by dealing out. */
  lemma SharesSumUp(total: nat, n: nat)
    requires n > 0
    ensures Sum(Shares(total, n, n)) == total
  {
    SumOfShares(total, n, n);
    assert n * (total / n) + total % n == total;
  }

  /** A larger total gives no part less. */
  lemma ShareMonotone(a: nat, b: nat, n: nat, i: nat)
    requires n > 0 && a <= b
    ensures Share(a, n, i) <= Share(b, n, i)
  {
    var qa, qb, ra, rb := a / n, b / n, a % n, b % n;
    assert a == qa * n + ra && b == qb * n + rb;
    assert (qa - qb) * n <= rb - ra;
    Quotients(qa - qb, n, rb - ra);
  }

  lemma Quotients(d: int, n: nat, r: int)
    requires n > 0 && d * n <= r < n
    ensures d <= 0 && (d == 0 ==> r >= 0)
  {
    assert d >= 1 ==> d * n >= n;
  }

  lemma ShareAtLeastOneIff(total: nat, n: nat)
    requires n > 0
    ensures (forall i :: 0 <= i < n ==> Share(total, n, i) >= 1) <==> total >= n
  {
    if total >= n {
      assert total / n >= 1;
    } else {
      assert total / n == 0 && total % n == total;
      assert Share(total, n, n - 1) == 0;
    }
  }

  // Over threads.

  datatype WorkerArgs = WorkerArgs(nreqs: nat, nclients: nat, rate: nat)

  datatype Config = Config(nreqs: nat, nclients: nat, nthreads: nat, rate: nat)

  /** The checks made before a counted run; a rate of 0 means that the clients are started all at once. */
  predicate Accepted(c: Config) {
    && 1 <= c.nthreads <= c.nclients <= c.nreqs
    && (c.rate > 0 ==> c.nthreads <= c.rate <= c.nclients)
  }

  /** What is left of the remainder after the first `i` parts. */
  function Rem(total: nat, n: nat, i: nat): nat
    requires n > 0
  {
    if i < total % n then total % n - i else 0
  }

  function Each(total: nat, n: nat): nat
    requires n > 0
  {
    total / n
  }

  method Divide(total: nat, n: nat) returns (each: nat, rem: nat)
    requires n > 0
    ensures each == Each(total, n) && rem == Rem(total, n, 0)
  {
    each, rem := total / n, total % n;
  }

  /** Takes one from the remainder as long as there is one. */
  method Deal(each: nat, rem: nat, ghost total: nat, ghost n: nat, ghost i: nat) returns (share: nat, left: nat)
    requires n > 0 && each == Each(total, n) && rem == Rem(total, n, i)
    ensures share == Share(total, n, i) && left == Rem(total, n, i + 1)
  {
    share, left := each, rem;
    if left > 0 {
      left := left - 1;
      share := share + 1;
    }
  }

  function ArgsOf(c: Config, i: nat): WorkerArgs
    requires c.nthreads > 0
  {
    WorkerArgs(Share(c.nreqs, c.nthreads, i), Share(c.nclients, c.nthreads, i),
               if c.rate > 0 then Share(c.rate, c.nthreads, i) else Share(c.nclients, c.nthreads, i))
  }

  ghost function Column(workers: seq<WorkerArgs>, f: WorkerArgs -> nat): seq<nat> {
    seq(|workers|, i requires 0 <= i < |workers| => f(workers[i]))
  }

  lemma ColumnSum(workers: seq<WorkerArgs>, f: WorkerArgs -> nat, total: nat)
    requires workers != [] && forall i :: 0 <= i < |workers| ==> f(workers[i]) == Share(total, |workers|, i)
    ensures Sum(Column(workers, f)) == total
  {
    SharesAre(total, |workers|, |workers|);
    assert Column(workers, f) == Shares(total, |workers|, |workers|);
    SharesSumUp(total, |workers|);
  }

  /** The thread loop of the program, which counts three remainders down. */
  method SpawnWorkers(c: Config) returns (workers: seq<WorkerArgs>)
    requires c.nthreads > 0
    ensures |workers| == c.nthreads
    ensures forall i :: 0 <= i < c.nthreads ==> workers[i] == ArgsOf(c, i)
    ensures Sum(Column(workers, (w: WorkerArgs) => w.nreqs)) == c.nreqs
    ensures Sum(Column(workers, (w: WorkerArgs) => w.nclients)) == c.nclients
    ensures Sum(Column(workers, (w: WorkerArgs) => w.rate)) == if c.rate > 0 then c.rate else c.nclients
  {
    hide Share;
    hide Each;
    hide Rem;
    var reqs, reqsRem := Divide(c.nreqs, c.nthreads);
    var clients, clientsRem := Divide(c.nclients, c.nthreads);
    var rates, ratesRem := Divide(c.rate, c.nthreads);
    workers := [];
    for i := 0 to c.nthreads
      invariant |workers| == i && forall k :: 0 <= k < i ==> workers[k] == ArgsOf(c, k)
      invariant reqsRem == Rem(c.nreqs, c.nthreads, i)
      invariant clientsRem == Rem(c.nclients, c.nthreads, i)
      invariant ratesRem == Rem(c.rate, c.nthreads, i)
    {
      var rate, nclients, nreqs;
      rate, ratesRem := Deal(rates, ratesRem, c.rate, c.nthreads, i);
      nclients, clientsRem := Deal(clients, clientsRem, c.nclients, c.nthreads, i);
      nreqs, reqsRem := Deal(reqs, reqsRem, c.nreqs, c.nthreads, i);
      workers := workers + [WorkerArgs(nreqs, nclients, if c.rate > 0 then rate else nclients)];
    }
    ColumnSum(workers, (w: WorkerArgs) => w.nreqs, c.nreqs);
    ColumnSum(workers, (w: WorkerArgs) => w.nclients, c.nclients);
    ColumnSum(workers, (w: WorkerArgs) => w.rate, if c.rate > 0 then c.rate else c.nclients);
  }

  // Over the clients of one thread.

  /** A worker and the request counts of the clients it has created so far. */
  class Worker {
    const nclients: nat
    const rate: nat
    const reqsPerClient: nat
    ghost const nreqs: nat
    var reqsRem: nat
    var connsMade: nat
    var todos: seq<nat>

    ghost predicate Valid()
      reads this
    {
      && nclients > 0 && reqsPerClient == nreqs / nclients
      && connsMade == |todos| <= nclients
      && todos == Shares(nreqs, nclients, connsMade)
      && reqsRem == if connsMade < nreqs % nclients then nreqs % nclients - connsMade else 0
    }

    constructor (args: WorkerArgs)
      requires args.nclients > 0
      ensures Valid() && connsMade == 0 && nclients == args.nclients && rate == args.rate && nreqs == args.nreqs
    {
      nclients, rate, nreqs := args.nclients, args.rate, args.nreqs;
      reqsPerClient, reqsRem := args.nreqs / args.nclients, args.nreqs % args.nclients;
      connsMade, todos := 0, [];
    }

    method CreateClient()
      requires Valid() && connsMade < nclients
      modifies this
      ensures Valid() && connsMade == old(connsMade) + 1
    {
      var todo := reqsPerClient;
      if reqsRem > 0 {
        todo := todo + 1;
        reqsRem := reqsRem - 1;
      }
      todos := todos + [todo];
      connsMade := connsMade + 1;
    }

    /** rate_period_timeout_handler: one batch of clients. */
    method RatePeriod()
      requires Valid()
      modifies this
      ensures Valid()
      ensures connsMade == if old(connsMade) + rate < nclients then old(connsMade) + rate else nclients
    {
      var remaining := nclients - connsMade;
      var n := if rate < remaining then rate else remaining;
      for i := 0 to n
        invariant Valid() && connsMade == old(connsMade) + i
      {
        CreateClient();
      }
    }
  }

  /** All periods of a worker, until its clients are made; the batches together give each client its share. */
  method RunWorker(args: WorkerArgs) returns (todos: seq<nat>, periods: nat)
    requires args.nclients > 0 && args.rate > 0
    ensures todos == Shares(args.nreqs, args.nclients, args.nclients)
    ensures Sum(todos) == args.nreqs
    ensures (periods - 1) * args.rate < args.nclients <= periods * args.rate
  {
    var w := new Worker(args);
    periods := 0;
    while w.connsMade < w.nclients
      invariant w.Valid() && fresh(w)
      invariant w.nreqs == args.nreqs && w.nclients == args.nclients && w.rate == args.rate
      invariant w.connsMade == if periods * args.rate < args.nclients then periods * args.rate else args.nclients
      invariant periods > 0 ==> (periods - 1) * args.rate < args.nclients
      decreases args.nclients - w.connsMade
    {
      w.RatePeriod();
      assert (periods + 1) * args.rate == periods * args.rate + args.rate;
      periods := periods + 1;
    }
    todos := w.todos;
    SharesSumUp(args.nreqs, args.nclients);
  }

  // The two levels together.

  ghost function Todo(c: Config, thread: nat, client: nat): nat
    requires c.nthreads > 0 && Share(c.nclients, c.nthreads, thread) > 0
  {
    Share(Share(c.nreqs, c.nthreads, thread), Share(c.nclients, c.nthreads, thread), client)
  }

  /** Every accepted run: all threads get clients and a rate, the shares sum up, and no client gets a count
      of zero, which would be read as unbounded. */
  lemma AcceptedSplit(c: Config, thread: nat)
    requires Accepted(c) && thread < c.nthreads
    ensures var clients := Share(c.nclients, c.nthreads, thread);
            var reqs := Share(c.nreqs, c.nthreads, thread);
            && 1 <= clients <= reqs
            && (c.rate > 0 ==> 1 <= Share(c.rate, c.nthreads, thread) <= clients)
            && Sum(Shares(reqs, clients, clients)) == reqs
            && |Shares(reqs, clients, clients)| == clients
            && forall client :: 0 <= client < clients ==>
                 Shares(reqs, clients, clients)[client] == Todo(c, thread, client) >= 1
  {
    ShareAtLeastOneIff(c.nclients, c.nthreads);
    ShareMonotone(c.nclients, c.nreqs, c.nthreads, thread);
    var clients := Share(c.nclients, c.nthreads, thread);
    var reqs := Share(c.nreqs, c.nthreads, thread);
    SharesAre(reqs, clients, clients);
    SharesSumUp(reqs, clients);
    ShareAtLeastOneIff(reqs, clients);
    if c.rate > 0 {
      ShareAtLeastOneIff(c.rate, c.nthreads);
      ShareMonotone(c.rate, c.nclients, c.nthreads, thread);
    }
  }

  ghost predicate SomeClientGetsZero(c: Config)
    requires 1 <= c.nthreads <= c.nclients
  {
    exists thread, client ::
      && 0 <= thread < c.nthreads && 0 <= client < Share(c.nclients, c.nthreads, thread)
      && Todo(c, thread, client) == 0
  }

  /** The check of requests against clients is exactly the condition. */
  lemma ZeroIff(c: Config)
    requires 1 <= c.nthreads <= c.nclients
    ensures SomeClientGetsZero(c) <==> c.nreqs < c.nclients
  {
    ShareAtLeastOneIff(c.nclients, c.nthreads);
    if c.nreqs >= c.nclients {
      forall thread, client | 0 <= thread < c.nthreads && 0 <= client < Share(c.nclients, c.nthreads, thread)
        ensures Todo(c, thread, client) != 0
      {
        ShareMonotone(c.nclients, c.nreqs, c.nthreads, thread);
        ShareAtLeastOneIff(Share(c.nreqs, c.nthreads, thread), Share(c.nclients, c.nthreads, thread));
      }
    } else {
      var thread := SmallerSomewhere(c.nreqs, c.nclients, c.nthreads);
      var clients := Share(c.nclients, c.nthreads, thread);
      var reqs := Share(c.nreqs, c.nthreads, thread);
      assert reqs / clients == 0 && reqs % clients == reqs;
      assert Todo(c, thread, clients - 1) == 0;
    }
  }

  lemma SmallerSomewhere(a: nat, b: nat, n: nat) returns (i: nat)
    requires n > 0 && a < b
    ensures i < n && Share(a, n, i) < Share(b, n, i)
  {
    SharesSumUp(a, n);
    SharesSumUp(b, n);
    i := SmallerBelow(a, b, n, n);
  }

  lemma {:induction false} SmallerBelow(a: nat, b: nat, n: nat, k: nat) returns (i: nat)
    requires n > 0 && Sum(Shares(a, n, k)) < Sum(Shares(b, n, k))
    ensures i < k && Share(a, n, i) < Share(b, n, i)
    decreases k
  {
    Append(Shares(a, n, k - 1), Share(a, n, k - 1));
    Append(Shares(b, n, k - 1), Share(b, n, k - 1));
    if Share(a, n, k - 1) < Share(b, n, k - 1) {
      i := k - 1;
    } else {
      i := SmallerBelow(a, b, n, k - 1);
    }
  }

  ghost function AllTodos(c: Config, threads: nat): nat
    requires 1 <= c.nthreads <= c.nclients && threads <= c.nthreads
    requires forall t :: 0 <= t < c.nthreads ==> Share(c.nclients, c.nthreads, t) >= 1
  {
    if threads == 0 then 0 else
      var clients := Share(c.nclients, c.nthreads, threads - 1);
      AllTodos(c, threads - 1) + Sum(Shares(Share(c.nreqs, c.nthreads, threads - 1), clients, clients))
  }

  /** The counts of all clients of all threads sum exactly to the requested number. */
  lemma TwoLevelSum(c: Config)
    requires 1 <= c.nthreads <= c.nclients
    ensures forall t :: 0 <= t < c.nthreads ==> Share(c.nclients, c.nthreads, t) >= 1
    ensures AllTodos(c, c.nthreads) == c.nreqs
  {
    ShareAtLeastOneIff(c.nclients, c.nthreads);
    SharesSumUp(c.nreqs, c.nthreads);
    TwoLevelPrefix(c, c.nthreads);
  }

  lemma {:induction false} TwoLevelPrefix(c: Config, threads: nat)
    requires 1 <= c.nthreads <= c.nclients && threads <= c.nthreads
    requires forall t :: 0 <= t < c.nthreads ==> Share(c.nclients, c.nthreads, t) >= 1
    ensures AllTodos(c, threads) == Sum(Shares(c.nreqs, c.nthreads, threads))
    decreases threads
  {
    if threads > 0 {
      TwoLevelPrefix(c, threads - 1);
      SharesSumUp(Share(c.nreqs, c.nthreads, threads - 1), Share(c.nclients, c.nthreads, threads - 1));
      Append(Shares(c.nreqs, c.nthreads, threads - 1), Share(c.nreqs, c.nthreads, threads - 1));
    }
  }
}
