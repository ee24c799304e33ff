/** Response ordering on a pipelined HTTP/1.1 server connection (section 6.3.2 of RFC 7230): requests are
    numbered as they arrive, responses become ready in any order, and are written in request order.
 */
module Http1Pipeline {

  import opened FiniteSets

  /** `streams` are the keys of the ordered stream map, `ready` is stream_ids_to_respond.  `written` and
      `closed` are history. */
  datatype Handler = Handler(count: nat, streams: set<nat>, ready: set<nat>, written: seq<nat>, closed: set<nat>)

  // ---------------------------------------------------------------------------------------
  // Operations
  // ---------------------------------------------------------------------------------------

  function New(): Handler {
    Handler(0, {}, {}, [], {})
  }

  /** A request begins: the next number, and a stream for it. */
  function Begin(h: Handler): Handler {
    h.(count := h.count + 1, streams := h.streams + {h.count + 1})
  }

  /** start_response of an open stream. */
  function StartResponse(h: Handler, id: nat): Handler {
    h.(ready := h.ready + {id})
  }

  /** A stream is closed without a response. */
  function Close(h: Handler, id: nat): Handler {
    h.(streams := h.streams - {id}, closed := if id in h.streams then h.closed + {id} else h.closed)
  }

  /** How many numbers from k on are ready in one piece. */
  function RunLength(ready: set<nat>, k: nat): nat
    decreases |ready|
  {
    if k in ready then 1 + RunLength(ready - {k}, k + 1) else 0
  }

  /** The numbers written by one call of on_write: none, or the run of ready numbers that starts at the
      oldest open stream. */
  function Batch(h: Handler): seq<nat> {
    if h.streams == {} || h.ready == {} || Least(h.ready) != Least(h.streams) then []
    else
      var k := Least(h.streams);
      seq(RunLength(h.ready, k), i => k + i)
  }

  function ToSet(s: seq<nat>): set<nat> {
    set x | x in s
  }

  function OnWrite(h: Handler): Handler {
    var b := Batch(h);
    h.(streams := h.streams - ToSet(b), ready := h.ready - ToSet(b), written := h.written + b)
  }

  // ---------------------------------------------------------------------------------------
  // Events and runs
  // ---------------------------------------------------------------------------------------

  datatype Event = BeginEvent | ReadyEvent(id: nat) | CloseEvent(id: nat) | WriteEvent

  /** Only open streams become ready; any stream may be closed at any time. */
  predicate Enabled(h: Handler, e: Event) {
    e.ReadyEvent? ==> e.id in h.streams
  }

  /** on_write takes a number whose stream is gone, and looks up a stream that is not there. */
  ghost predicate Faults(h: Handler) {
    exists id :: id in Batch(h) && id !in h.streams
  }

  function Step(h: Handler, e: Event): Handler {
    match e
    case BeginEvent => Begin(h)
    case ReadyEvent(id) => StartResponse(h, id)
    case CloseEvent(id) => Close(h, id)
    case WriteEvent => OnWrite(h)
  }

  predicate ValidRun(h: Handler, es: seq<Event>)
    decreases |es|
  {
    es == [] || (Enabled(h, es[0]) && ValidRun(Step(h, es[0]), es[1..]))
  }

  function Run(h: Handler, es: seq<Event>): Handler
    decreases |es|
  {
    if es == [] then h else Run(Step(h, es[0]), es[1..])
  }

  /** No write of the run faults. */
  ghost predicate SafeRun(h: Handler, es: seq<Event>)
    decreases |es|
  {
    es == [] || ((es[0].WriteEvent? ==> !Faults(h)) && SafeRun(Step(h, es[0]), es[1..]))
  }

  // ---------------------------------------------------------------------------------------
  // Invariant
  // ---------------------------------------------------------------------------------------

  ghost predicate Increasing(s: seq<nat>) {
    forall i, j :: 0 <= i < j < |s| ==> s[i] < s[j]
  }

  ghost predicate Inv(h: Handler) {
    && (forall id :: id in h.streams || id in h.ready ==> 1 <= id <= h.count)
    && Increasing(h.written)
    && (forall i, id :: 0 <= i < |h.written| && id in h.streams ==> h.written[i] < id)
    && (forall i :: 0 <= i < |h.written| ==> 1 <= h.written[i] <= h.count)
    && (forall id :: 1 <= id <= h.count ==> id in h.streams || id in h.written || id in h.closed)
    && (forall id :: id in h.closed ==> id !in h.streams && id !in h.written && 1 <= id <= h.count)
  }

  /** No stream whose response is ready was closed. */
  ghost predicate Answering(h: Handler) {
    h.ready <= h.streams
  }

  /** The run of ready numbers: all of it ready, and the number after it is not. */
  lemma {:induction false} RunIsReady(ready: set<nat>, k: nat)
    ensures forall j :: k <= j < k + RunLength(ready, k) ==> j in ready
    ensures k + RunLength(ready, k) !in ready
    decreases |ready|
  {
    if k in ready {
      RunIsReady(ready - {k}, k + 1);
      forall j | k <= j < k + RunLength(ready, k)
        ensures j in ready
      {
        assert j == k || j in ready - {k};
      }
    }
  }

  /** What one call writes: ready, in order, without a gap, from the oldest open stream on. */
  lemma BatchFacts(h: Handler)
    ensures var b := Batch(h);
            && Increasing(b)
            && (forall i :: 0 <= i < |b| ==> b[i] in h.ready)
            && (forall i :: 0 <= i < |b| ==> b[i] == Least(h.streams) + i)
            && (b != [] ==> forall id :: id in h.streams && id !in b ==> b[|b| - 1] < id)
  {
    if Batch(h) != [] {
      var k, b := Least(h.streams), Batch(h);
      RunIsReady(h.ready, k);
      assert forall i :: 0 <= i < |b| ==> b[i] == k + i;
      forall j | k <= j < k + |b|
        ensures j in b
      {
        assert b[j - k] == j;
      }
    }
  }

  /** on_write writes nothing if and only if the oldest stream is not ready, or a number before it still waits that
      has lost its stream. */
  lemma WritesNothingIff(h: Handler)
    ensures Batch(h) == []
            <==> || h.streams == {} || Least(h.streams) !in h.ready
                 || exists id :: id in h.ready && id < Least(h.streams)
  {
    if h.streams != {} && h.ready != {} {
      assert Least(h.ready) in h.ready;
    }
  }

  lemma WriteKeeps(h: Handler)
    requires Inv(h) && !Faults(h)
    ensures Inv(OnWrite(h))
  {
    hide Batch;
    BatchFacts(h);
    var b, h' := Batch(h), OnWrite(h);
    forall i | 0 <= i < |b|
      ensures b[i] in h.streams
    {
    }
    assert Increasing(h'.written);
    forall i, id | 0 <= i < |h'.written| && id in h'.streams
      ensures h'.written[i] < id
    {
      if i >= |h.written| {
        assert h'.written[i] == b[i - |h.written|] <= b[|b| - 1];
      }
    }
    forall id | 1 <= id <= h'.count
      ensures id in h'.streams || id in h'.written || id in h'.closed
    {
      assert id in b ==> id in h'.written;
      assert id in h.written ==> id in h'.written;
    }
  }

  lemma StepKeeps(h: Handler, e: Event)
    requires Inv(h) && Enabled(h, e) && (e.WriteEvent? ==> !Faults(h))
    ensures Inv(Step(h, e))
  {
    hide OnWrite;
    hide Faults;
    match e
    case WriteEvent => WriteKeeps(h);
    case _ =>
  }

  lemma {:induction false} RunKeeps(h: Handler, es: seq<Event>)
    requires Inv(h) && ValidRun(h, es) && SafeRun(h, es)
    ensures Inv(Run(h, es))
    decreases |es|
  {
    hide Inv;
    hide Step;
    hide Faults;
    if es != [] {
      StepKeeps(h, es[0]);
      RunKeeps(Step(h, es[0]), es[1..]);
    }
  }

  /** Over any interleaving of arrivals, completions, closes and writes in which no write faults: responses
      go out in strictly increasing request order, each at most once, and when response k has been written
      every earlier request was written or closed. */
  lemma ResponsesInOrder(es: seq<Event>)
    requires ValidRun(New(), es) && SafeRun(New(), es)
    ensures var h := Run(New(), es);
            && Increasing(h.written)
            && (forall i, id :: 0 <= i < |h.written| && 1 <= id < h.written[i] ==> id in h.written || id in h.closed)
            && (forall id :: id in h.closed ==> id !in h.written)
  {
    hide Run;
    hide SafeRun;
    RunKeeps(New(), es);
    var h := Run(New(), es);
  }

  /** A write faults only if a stream was closed whose response was ready: as long as none was, every run is
      safe. */
  lemma {:induction false} SafeUnlessReadyIsClosed(h: Handler, es: seq<Event>)
    requires Answering(h) && ValidRun(h, es) && ClosesOnlyUnready(h, es)
    ensures SafeRun(h, es) && Answering(Run(h, es))
    decreases |es|
  {
    if es != [] {
      hide Batch;
      BatchFacts(h);
      assert !Faults(h);
      SafeUnlessReadyIsClosed(Step(h, es[0]), es[1..]);
    }
  }

  ghost predicate ClosesOnlyUnready(h: Handler, es: seq<Event>)
    decreases |es|
  {
    es == [] ||
    ((es[0].CloseEvent? ==> es[0].id !in h.ready) && ClosesOnlyUnready(Step(h, es[0]), es[1..]))
  }

  // ---------------------------------------------------------------------------------------
  // Closing a stream whose response is ready
  // ---------------------------------------------------------------------------------------

  /** Number `d` is ready and its stream is gone. */
  ghost predicate Lost(h: Handler, d: nat) {
    d in h.ready && d !in h.streams && d <= h.count
  }

  /** A lost number stays lost, and is in the way of all later ones: every run either takes it, or another
      lost number, without a stream, or never writes a number above it. */
  lemma {:induction false} LostStopsLater(h: Handler, d: nat, es: seq<Event>)
    requires Lost(h, d) && SafeRun(h, es)
    ensures var r := Run(h, es);
            && Lost(r, d) && h.written <= r.written
            && forall i :: |h.written| <= i < |r.written| ==> r.written[i] < d
    decreases |es|
  {
    hide Run;
    if es == [] {
      RunNothing(h);
    } else {
      RunFirst(h, es);
      LostStep(h, d, es[0]);
      hide Step;
      hide Lost;
      LostStopsLater(Step(h, es[0]), d, es[1..]);
      var h1, r := Step(h, es[0]), Run(h, es);
      forall i | |h.written| <= i < |r.written|
        ensures r.written[i] < d
      {
        assert i < |h1.written| ==> r.written[i] == h1.written[i];
      }
    }
  }

  lemma LostStep(h: Handler, d: nat, e: Event)
    requires Lost(h, d) && (e.WriteEvent? ==> !Faults(h))
    ensures var t := Step(h, e);
            && Lost(t, d) && h.written <= t.written
            && forall i :: |h.written| <= i < |t.written| ==> t.written[i] < d
  {
    if e.WriteEvent? {
      hide Batch;
      BatchFrom(h);
      var b := Batch(h);
      assert forall i :: 0 <= i < |b| ==> b[i] < d;
    }
  }

  /** A batch begins with the least ready number and has no gap. */
  lemma BatchFrom(h: Handler)
    ensures var b := Batch(h);
            forall d, i :: 0 <= i < |b| && d in h.ready && d <= b[i] ==> d in b
  {
    var b := Batch(h);
    forall d, i | 0 <= i < |b| && d in h.ready && d <= b[i]
      ensures d in b
    {
      var k := Least(h.streams);
      assert k <= d && b[i] == k + i;
      assert b[d - k] == d;
    }
  }

  /** If it stands before all open streams, nothing is ever written again, whatever happens. */
  lemma {:induction false} BlockedForever(h: Handler, d: nat, es: seq<Event>)
    requires Lost(h, d) && forall id :: id in h.streams ==> d < id
    ensures Run(h, es).written == h.written && SafeRun(h, es)
    decreases |es|
  {
    hide Run;
    if es == [] {
      RunNothing(h);
    } else {
      RunFirst(h, es);
      BlockedBatch(h, d);
      assert ToSet([]) == {};
      assert h.streams - {} == h.streams && h.ready - {} == h.ready && h.written + [] == h.written;
      BlockedForever(Step(h, es[0]), d, es[1..]);
    }
  }

  lemma RunNothing(h: Handler)
    ensures Run(h, []) == h
  {
  }

  lemma RunFirst(h: Handler, es: seq<Event>)
    requires es != []
    ensures Run(h, es) == Run(Step(h, es[0]), es[1..])
  {
  }

  lemma BlockedBatch(h: Handler, d: nat)
    requires Lost(h, d) && forall id :: id in h.streams ==> d < id
    ensures Batch(h) == []
  {
    if h.streams != {} {
      assert Least(h.ready) <= d < Least(h.streams);
    }
  }

  /** Some run answers the next request. */
  ghost predicate CanAnswerNext(h: Handler) {
    exists es :: ValidRun(h, es) && SafeRun(h, es) && h.count + 1 in Run(h, es).written
  }

  /** Closing an open stream leaves it possible to answer the next request if and only if the response of
      the closed stream is not ready. */
  lemma CloseLeavesRoomIff(h: Handler, id: nat)
    requires Inv(h) && Answering(h) && id in h.streams
    ensures CanAnswerNext(Close(h, id)) <==> id !in h.ready
  {
    var g := Close(h, id);
    if id in h.ready {
      forall es | ValidRun(g, es) && SafeRun(g, es)
        ensures g.count + 1 !in Run(g, es).written
      {
        LostStopsLater(g, id, es);
      }
    } else {
      var es := AnswerNext(g);
    }
  }

  /** While no ready stream was closed: write or close the oldest stream until none is left, then answer. */
  lemma {:induction false} AnswerNext(h: Handler) returns (es: seq<Event>)
    requires Inv(h) && Answering(h)
    ensures ValidRun(h, es) && SafeRun(h, es) && h.count + 1 in Run(h, es).written
    decreases |h.streams|
  {
    hide Run;
    hide ValidRun;
    hide SafeRun;
    hide Step;
    hide Faults;
    hide Inv;
    if h.streams == {} {
      es := AnswerAlone(h);
    } else {
      var k := Least(h.streams);
      var e := if k in h.ready then WriteEvent else CloseEvent(k);
      OldestGone(h, e);
      var g := Step(h, e);
      var more := AnswerNext(g);
      es := [e] + more;
      RunCons(h, e, more);
    }
  }

  lemma RunCons(h: Handler, e: Event, more: seq<Event>)
    requires Enabled(h, e) && (e.WriteEvent? ==> !Faults(h))
    requires ValidRun(Step(h, e), more) && SafeRun(Step(h, e), more)
    ensures ValidRun(h, [e] + more) && SafeRun(h, [e] + more) && Run(h, [e] + more) == Run(Step(h, e), more)
  {
    hide Step;
    hide Faults;
    assert ([e] + more)[1..] == more;
  }

  lemma OldestGone(h: Handler, e: Event)
    requires Inv(h) && Answering(h) && h.streams != {}
    requires e == if Least(h.streams) in h.ready then WriteEvent else CloseEvent(Least(h.streams))
    ensures var g := Step(h, e);
            && Inv(g) && Answering(g) && g.count == h.count && |g.streams| < |h.streams|
            && Enabled(h, e) && (e.WriteEvent? ==> !Faults(h))
  {
    var k, g := Least(h.streams), Step(h, e);
    BatchFacts(h);
    assert !Faults(h);
    StepKeeps(h, e);
    WritesNothingIff(h);
    if e.WriteEvent? {
      assert Batch(h)[0] == k;
    }
    hide Batch;
    assert k !in g.streams && g.streams <= h.streams - {k};
    SubsetSize(g.streams, h.streams - {k});
  }

  lemma {:induction false} SubsetSize(a: set<nat>, b: set<nat>)
    requires a <= b
    ensures |a| <= |b|
    decreases |a|
  {
    if a != {} {
      var x :| x in a;
      SubsetSize(a - {x}, b - {x});
    }
  }

  lemma AnswerAlone(h: Handler) returns (es: seq<Event>)
    requires Inv(h) && Answering(h) && h.streams == {}
    ensures ValidRun(h, es) && SafeRun(h, es) && h.count + 1 in Run(h, es).written
  {
    hide Run;
    var n := h.count + 1;
    var h1 := Begin(h);
    var h2 := StartResponse(h1, n);
    assert h2.streams == {n} && h2.ready == {n};
    RunLengthOne(n);
    assert Batch(h2) == [n];
    assert !Faults(h2);
    es := [BeginEvent] + ([ReadyEvent(n)] + ([WriteEvent] + []));
    RunCons(h2, WriteEvent, []);
    RunCons(h1, ReadyEvent(n), [WriteEvent] + []);
    RunCons(h, BeginEvent, [ReadyEvent(n)] + ([WriteEvent] + []));
    RunNothing(OnWrite(h2));
    assert OnWrite(h2).written[|h.written|] == n;
  }

  lemma RunLengthOne(n: nat)
    ensures RunLength({n}, n) == 1
  {
    RunIsReady({n}, n);
    assert RunLength({n}, n) >= 2 ==> n + 1 in {n};
  }

  /** Two requests, both answered, the second closed before the write: the write takes a number whose stream
      is gone. */
  lemma CloseThenFault()
    ensures var es := [BeginEvent, BeginEvent, ReadyEvent(1), ReadyEvent(2), CloseEvent(2)];
            ValidRun(New(), es) && SafeRun(New(), es) && Faults(Run(New(), es))
            && Batch(Run(New(), es)) == [1, 2]
  {
    var es := [BeginEvent, BeginEvent, ReadyEvent(1), ReadyEvent(2), CloseEvent(2)];
    var h1 := Begin(New());
    var h2 := Begin(h1);
    var h3 := StartResponse(h2, 1);
    var h4 := StartResponse(h3, 2);
    var h5 := Close(h4, 2);
    assert h5.streams == {1} && h5.ready == {1, 2};
    FiveSteps(New(), h1, h2, h3, h4, h5, es);
    hide Run;
    hide ValidRun;
    hide SafeRun;
    OneAndTwo(h5);
  }

  lemma OneAndTwo(h: Handler)
    requires h.streams == {1} && h.ready == {1, 2}
    ensures Batch(h) == [1, 2] && Faults(h)
  {
    RunIsReady({1, 2}, 1);
    var n := RunLength({1, 2}, 1);
    assert n >= 3 ==> 3 in {1, 2};
    assert 1 + n !in {1, 2};
    assert Least(h.ready) == 1 && Least(h.streams) == 1;
    assert Batch(h) == [1, 2];
    assert Batch(h)[1] == 2;
    assert 2 in Batch(h) && 2 !in h.streams;
  }

  /** Two requests, the first answered and closed before the write: the second is never answered, whatever
      happens. */
  lemma CloseThenSilence(more: seq<Event>)
    ensures var es := [BeginEvent, BeginEvent, ReadyEvent(1), CloseEvent(1), ReadyEvent(2)];
            ValidRun(New(), es) && SafeRun(New(), es)
            && Run(Run(New(), es), more).written == [] && SafeRun(Run(New(), es), more)
  {
    var es := [BeginEvent, BeginEvent, ReadyEvent(1), CloseEvent(1), ReadyEvent(2)];
    var h1 := Begin(New());
    var h2 := Begin(h1);
    var h3 := StartResponse(h2, 1);
    var h4 := Close(h3, 1);
    var h5 := StartResponse(h4, 2);
    assert h5.streams == {2} && h5.ready == {1, 2};
    FiveSteps(New(), h1, h2, h3, h4, h5, es);
    BlockedForever(h5, 1, more);
  }

  lemma FiveSteps(h0: Handler, h1: Handler, h2: Handler, h3: Handler, h4: Handler, h5: Handler, es: seq<Event>)
    requires |es| == 5 && WriteEvent !in es
    requires Enabled(h0, es[0]) && h1 == Step(h0, es[0]) && Enabled(h1, es[1]) && h2 == Step(h1, es[1])
    requires Enabled(h2, es[2]) && h3 == Step(h2, es[2]) && Enabled(h3, es[3]) && h4 == Step(h3, es[3])
    requires Enabled(h4, es[4]) && h5 == Step(h4, es[4])
    ensures ValidRun(h0, es) && SafeRun(h0, es) && Run(h0, es) == h5
  {
    hide Step;
    hide Enabled;
    hide Faults;
    RunNothing(h5);
    RunCons(h4, es[4], []);
    RunCons(h3, es[3], [es[4]]);
    assert [es[3]] + [es[4]] == es[3..];
    RunCons(h2, es[2], es[3..]);
    assert [es[2]] + es[3..] == es[2..];
    RunCons(h1, es[1], es[2..]);
    assert [es[1]] + es[2..] == es[1..];
    RunCons(h0, es[0], es[1..]);
    assert [es[0]] + es[1..] == es && [es[4]] + [] == [es[4]];
  }

  // ---------------------------------------------------------------------------------------
  // The object
  // ---------------------------------------------------------------------------------------

  class Http1Handler {
    var requestCount: nat
    var streams: set<nat>
    var streamIdsToRespond: set<nat>
    ghost var written: seq<nat>
    ghost var closed: set<nat>

    ghost function View(): Handler
      reads this
    {
      Handler(requestCount, streams, streamIdsToRespond, written, closed)
    }

    constructor ()
      ensures View() == New()
    {
      requestCount, streams, streamIdsToRespond, written, closed := 0, {}, {}, [], {};
    }

    /** http1_msg_begincb: the number is new, as create_stream asserts. */
    method MessageBegin()
      requires Inv(View())
      modifies this
      ensures View() == Begin(old(View())) && Inv(View())
    {
      requestCount := requestCount + 1;
      assert requestCount !in streams;
      streams := streams + {requestCount};
    }

    method SetReady(id: nat)
      requires Inv(View()) && id in streams
      modifies this
      ensures View() == StartResponse(old(View()), id) && Inv(View())
    {
      streamIdsToRespond := streamIdsToRespond + {id};
    }

    method CloseStream(id: nat)
      modifies this
      ensures View() == Close(old(View()), id)
    {
      if id in streams {
        closed := closed + {id};
      }
      streams := streams - {id};
    }

    /** get_consecutive_stream_ids_to_respond: takes the run off the ready set. */
    method TakeConsecutive() returns (ids: seq<nat>)
      modifies this`streamIdsToRespond
      ensures ids == Batch(old(View()))
      ensures streamIdsToRespond == old(streamIdsToRespond) - ToSet(ids)
    {
      ids := [];
      if streamIdsToRespond == {} || streams == {} || Least(streamIdsToRespond) != Least(streams) {
        return;
      }
      var k := Least(streams);
      ghost var n := RunLength(streamIdsToRespond, k);
      while streamIdsToRespond != {} && Least(streamIdsToRespond) == k + |ids|
        invariant ids == seq(|ids|, i => k + i)
        invariant streamIdsToRespond == old(streamIdsToRespond) - ToSet(ids)
        invariant |ids| + RunLength(streamIdsToRespond, k + |ids|) == n
        invariant forall x :: x in streamIdsToRespond ==> k + |ids| <= x
        decreases streamIdsToRespond
      {
        var next := Least(streamIdsToRespond);
        streamIdsToRespond := streamIdsToRespond - {next};
        ids := ids + [next];
      }
    }

    /** The loop of on_write over the numbers: each stream is looked up when its response is written, and
        `found` says whether all were there. */
    method OnWriteIds() returns (ids: seq<nat>, found: bool)
      modifies this
      ensures ids == Batch(old(View()))
      ensures found <==> !Faults(old(View()))
      ensures found ==> View() == OnWrite(old(View()))
      ensures found && Inv(old(View())) ==> Inv(View())
    {
      hide Batch;
      hide Inv;
      ghost var before := View();
      BatchFacts(before);
      if Inv(before) && !Faults(before) {
        WriteKeeps(before);
      }
      ids := TakeConsecutive();
      found := true;
      var n := 0;
      assert ToSet(ids[..0]) == {};
      while n < |ids|
        invariant 0 <= n <= |ids|
        invariant forall k :: 0 <= k < n ==> ids[k] in before.streams
        invariant streams == before.streams - ToSet(ids[..n])
        invariant written == before.written + ids[..n]
        invariant requestCount == before.count && closed == before.closed
        invariant streamIdsToRespond == before.ready - ToSet(ids)
      {
        var id := ids[n];
        assert id !in ids[..n];
        if id !in streams {
          assert id in Batch(before) && id !in before.streams;
          return ids, false;
        }
        written := written + [id];
        assert ids[..n + 1] == ids[..n] + [id];
        assert ToSet(ids[..n + 1]) == ToSet(ids[..n]) + {id};
        streams := streams - {id};
        n := n + 1;
      }
      assert ids[..|ids|] == ids;
    }
  }
}
