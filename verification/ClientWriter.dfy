/** The client's double-buffered asynchronous writes: one buffer is filled while the other is being sent. */
module ClientWriter {

  import opened Basics

  /** What happens on one connection; `allowed` is what a pending shutdown or restart callback answers. */
  datatype Event =
    | PushEvent(data: seq<Byte>)
    | SignalEvent(chunks: seq<seq<Byte>>)
    | CompleteEvent(ok: bool, allowed: bool)
    | StopEvent

  /** The bytes handed to asynchronous writes so far, those in the current buffer, and those of the last write. */
  datatype Link = Link(handed: seq<Byte>, waiting: seq<Byte>, inFlight: seq<Byte>, writing: bool, stopped: bool)

  function NewLink(): Link {
    Link([], [], [], false, false)
  }

  /** What a session that offers `chunks` gets written: everything before its first empty offer. */
  ghost function UntilEmpty(chunks: seq<seq<Byte>>): seq<Byte> {
    if chunks == [] || chunks[0] == [] then [] else chunks[0] + UntilEmpty(chunks[1..])
  }

  function Pushed(l: Link, data: seq<Byte>): Link {
    l.(waiting := l.waiting + data)
  }

  /** With no write in progress, everything that waits is handed over. */
  function Written(l: Link): Link {
    if l.writing || l.stopped || l.waiting == [] then l
    else l.(handed := l.handed + l.waiting, waiting := [], inFlight := l.waiting, writing := true)
  }

  function Completed(l: Link, ok: bool, allowed: bool): Link {
    var m := l.(writing := false);
    if ok && allowed then Written(m) else m
  }

  ghost function Step(l: Link, e: Event): Link {
    match e
    case PushEvent(data) => Pushed(l, data)
    case SignalEvent(chunks) => Written(Pushed(l, UntilEmpty(chunks)))
    case CompleteEvent(ok, allowed) => Completed(l, ok, allowed)
    case StopEvent => l.(stopped := true)
  }

  ghost function Run(events: seq<Event>): Link {
    if events == [] then NewLink() else Step(Run(events[..|events| - 1]), events[|events| - 1])
  }

  /** All bytes that the events push, in order. */
  ghost function PushedBy(events: seq<Event>): seq<Byte> {
    if events == [] then [] else
      PushedBy(events[..|events| - 1]) +
      match events[|events| - 1]
      case PushEvent(data) => data
      case SignalEvent(chunks) => UntilEmpty(chunks)
      case _ => []
  }

  /** For every sequence of events: the bytes handed to asynchronous writes are a prefix of the bytes pushed,
      the rest is what waits, and the write in progress is the last part handed over. */
  lemma {:induction false} RunDelivers(events: seq<Event>)
    ensures var l := Run(events);
            && l.handed + l.waiting == PushedBy(events)
            && (l.writing ==> |l.inFlight| <= |l.handed| && l.inFlight == l.handed[|l.handed| - |l.inFlight|..])
    decreases |events|
  {
    if events != [] {
      hide UntilEmpty;
      RunDelivers(events[..|events| - 1]);
      StepDelivers(Run(events[..|events| - 1]), events[|events| - 1]);
    }
  }

  lemma StepDelivers(l: Link, e: Event)
    requires l.writing ==> |l.inFlight| <= |l.handed| && l.inFlight == l.handed[|l.handed| - |l.inFlight|..]
    ensures var m := Step(l, e);
            && m.handed + m.waiting == l.handed + l.waiting +
                 (match e case PushEvent(data) => data case SignalEvent(chunks) => UntilEmpty(chunks) case _ => [])
            && (m.writing ==> |m.inFlight| <= |m.handed| && m.inFlight == m.handed[|m.handed| - |m.inFlight|..])
  {
    hide UntilEmpty;
  }

  /** A completion hands over everything pushed before it, whatever went before, unless the connection was
      stopped. */
  lemma CompletionHandsOverAll(events: seq<Event>)
    requires StopEvent !in events
    ensures Run(events + [CompleteEvent(true, true)]).handed == PushedBy(events)
  {
    var all := events + [CompleteEvent(true, true)];
    assert all[..|all| - 1] == events;
    RunDelivers(all);
    StoppedIff(events);
    assert Run(all).waiting == [];
    assert Run(all).handed == Run(all).handed + Run(all).waiting;
    assert PushedBy(events) + [] == PushedBy(events);
  }

  /** A write is started by a signal when none is in progress, or by a completion that went well; never on a stopped
      connection, and never without bytes. */
  ghost predicate StartsWrite(events: seq<Event>, e: Event) {
    var l := Run(events);
    && StopEvent !in events && |l.handed| < |PushedBy(events + [e])|
    && ((e.SignalEvent? && !l.writing) || e == CompleteEvent(true, true))
  }

  /** One event after any others: a write that it starts takes all bytes that were pushed and not handed over; a write
      is in progress from its start to its completion; nothing else is handed over. */
  lemma EventHandsOver(events: seq<Event>, e: Event)
    ensures var l, m := Run(events), Run(events + [e]);
            && (m.writing <==> StartsWrite(events, e) || (l.writing && !e.CompleteEvent?))
            && m.handed == (if StartsWrite(events, e) then PushedBy(events + [e]) else l.handed)
            && (StartsWrite(events, e) ==> m.inFlight == m.handed[|l.handed|..])
            && (m.stopped <==> StopEvent in events + [e])
  {
    var all := events + [e];
    assert all[..|all| - 1] == events && all[|all| - 1] == e;
    hide UntilEmpty;
    RunDelivers(events);
    RunDelivers(all);
    StoppedIff(events);
    var l, m := Run(events), Run(all);
    assert m == Step(l, e);
    hide PushedBy;
    hide Run;
    if StartsWrite(events, e) {
      assert m.waiting == [] && m.handed + [] == m.handed;
    }
  }

  lemma {:induction false} StoppedIff(events: seq<Event>)
    ensures Run(events).stopped <==> StopEvent in events
    decreases |events|
  {
    if events != [] {
      StoppedIff(events[..|events| - 1]);
      assert events == events[..|events| - 1] + [events[|events| - 1]];
    }
  }

  class OutputBuffers {
    var buffers: seq<array<Byte>>
    var index: nat
    var length: nat
    var writeInProgress: bool
    var stopped: bool

    // History: all bytes handed to asynchronous writes, and those of the last write.
    ghost var handed: seq<Byte>
    ghost var inFlight: seq<Byte>

    /** The buffer that is not current is the one in flight, and it holds what was handed over. */
    ghost predicate Valid()
      reads this, if |buffers| == 2 then {buffers[0], buffers[1]} else {}
    {
      && |buffers| == 2 && buffers[0] != buffers[1]
      && index < 2 && length <= buffers[index].Length
      && (writeInProgress ==>
            |inFlight| <= buffers[1 - index].Length && buffers[1 - index][..|inFlight|] == inFlight)
    }

    ghost function View(): Link
      requires Valid()
      reads this, if |buffers| == 2 then {buffers[0], buffers[1]} else {}
    {
      Link(handed, buffers[index][..length], inFlight, writeInProgress, stopped)
    }

    ghost function Footprint(): set<object>
      requires |buffers| == 2
      reads this
    {
      {this, buffers[0], buffers[1]}
    }

    constructor ()
      ensures Valid() && fresh(Footprint())
      ensures View() == NewLink() && buffers[0].Length == buffers[1].Length == 64 * 1024
    {
      var a := new Byte[64 * 1024];
      var b := new Byte[64 * 1024];
      buffers := [a, b];
      index, length, writeInProgress, stopped := 0, 0, false, false;
      handed, inFlight := [], [];
    }

    /** Makes room for `extra` more bytes in the current buffer, moving its contents if it has to grow. */
    method Reserve(extra: nat)
      requires Valid()
      modifies this`buffers
      ensures Valid() && fresh(Footprint() - old(Footprint())) && View() == old(View())
      ensures buffers[1 - index] == old(buffers[1 - index])
      ensures buffers[index].Length - length >= extra
    {
      if buffers[index].Length - length < extra {
        var bigger := new Byte[length + extra];
        forall i | 0 <= i < length {
          bigger[i] := buffers[index][i];
        }
        assert bigger[..length] == buffers[index][..length];
        buffers := buffers[index := bigger];
      }
    }

    /** push_data_to_output_buffer: appends to the current buffer, which grows if it has to.  The buffer
        in flight, if there is one, keeps its bytes. */
    method Push(data: seq<Byte>)
      requires Valid()
      modifies this`buffers, this`length, buffers[index]
      ensures Valid() && fresh(Footprint() - old(Footprint()))
      ensures View() == Pushed(old(View()), data)
      ensures length == old(length) + |data| && buffers[1 - index] == old(buffers[1 - index])
    {
      Reserve(|data|);
      var current := buffers[index];
      ghost var before := current[..length];
      forall i | 0 <= i < |data| {
        current[length + i] := data[i];
      }
      length := length + |data|;
      assert current[..length] == before + data;
    }

    /** common_write: hands the current buffer to an asynchronous write and switches to the other one,
        unless a write is already in progress. */
    method DoWrite()
      requires Valid()
      modifies this
      ensures Valid() && buffers == old(buffers)
      ensures View() == Written(old(View()))
    {
      if writeInProgress || stopped || length == 0 {
        return;
      }
      inFlight := buffers[index][..length];
      handed := handed + inFlight;
      writeInProgress := true;
      length := 0;
      index := (index + 1) % |buffers|;
    }

    /** handle_write_complete. */
    method WriteComplete(ok: bool, allowed: bool)
      requires Valid()
      modifies this
      ensures Valid() && buffers == old(buffers)
      ensures View() == Completed(old(View()), ok, allowed)
    {
      writeInProgress := false;
      if !ok {
        return;
      }
      if !allowed {
        return;
      }
      DoWrite();
    }

    /** handle_write_signal: the session writes until it has nothing more, then a write is started. */
    method WriteSignal(chunks: seq<seq<Byte>>)
      requires Valid()
      modifies Footprint()
      ensures Valid() && fresh(Footprint() - old(Footprint()))
      ensures View() == Step(old(View()), SignalEvent(chunks))
    {
      ghost var before := View();
      assert chunks[0..] == chunks;
      var i := 0;
      while i < |chunks|
        invariant 0 <= i <= |chunks|
        invariant Valid() && fresh(Footprint() - old(Footprint()))
        invariant Pushed(View(), UntilEmpty(chunks[i..])) == Pushed(before, UntilEmpty(chunks))
      {
        var lengthBefore := length;
        assert chunks[i..][1..] == chunks[i + 1..];
        OfferPushed(View(), chunks[i..]);
        Push(chunks[i]);
        if length == lengthBefore {
          break;
        }
        i := i + 1;
      }
      OfferPushed(View(), chunks[i..]);
      assert View() == Pushed(before, UntilEmpty(chunks));
      DoWrite();
    }

    method Stop()
      requires Valid()
      modifies this`stopped
      ensures Valid() && View() == old(View()).(stopped := true)
    {
      stopped := true;
    }
  }

  /** Pushing a whole offer is pushing its first part and then the rest. */
  lemma OfferPushed(l: Link, chunks: seq<seq<Byte>>)
    ensures chunks == [] || chunks[0] == [] ==> Pushed(l, UntilEmpty(chunks)) == l
    ensures chunks != [] && chunks[0] == [] ==> Pushed(l, chunks[0]) == l
    ensures chunks != [] && chunks[0] != [] ==>
              Pushed(l, UntilEmpty(chunks)) == Pushed(Pushed(l, chunks[0]), UntilEmpty(chunks[1..]))
  {
    assert l.waiting + [] == l.waiting;
    if chunks != [] {
      assert l.waiting + (chunks[0] + UntilEmpty(chunks[1..])) == l.waiting + chunks[0] + UntilEmpty(chunks[1..]);
    }
  }

  /** The buffers after any sequence of events hold exactly what the events say. */
  method AnyRun(events: seq<Event>) returns (w: OutputBuffers)
    ensures w.Valid() && w.View() == Run(events)
    ensures w.handed + w.buffers[w.index][..w.length] == PushedBy(events)
    ensures w.writeInProgress ==> w.buffers[1 - w.index][..|w.inFlight|] == w.inFlight
  {
    hide UntilEmpty;
    hide Written;
    hide Completed;
    hide Pushed;
    w := new OutputBuffers();
    for k := 0 to |events|
      invariant w.Valid() && fresh(w.Footprint())
      invariant w.View() == Run(events[..k])
    {
      assert events[..k + 1][..k] == events[..k];
      match events[k] {
        case PushEvent(data) => w.Push(data);
        case SignalEvent(chunks) => w.WriteSignal(chunks);
        case CompleteEvent(ok, allowed) => w.WriteComplete(ok, allowed);
        case StopEvent => w.Stop();
      }
    }
    assert events[..|events|] == events;
    RunDelivers(events);
  }
}
