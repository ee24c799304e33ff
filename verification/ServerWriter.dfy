/** The server's write path for HTTP/2: frames drawn from the protocol library are packed into one output
    buffer, and the frame that did not fit is stashed for the next round. */
module ServerWriter {

  import opened Basics

  /** One answer of the protocol library: some bytes (none means nothing to send) or an error. */
  datatype Draw = Data(bytes: seq<Byte>) | Failed

  datatype Filled = Filled(out: seq<Byte>, stash: seq<Byte>, rest: seq<Draw>, ok: bool)

  ghost function Bytes(draws: seq<Draw>): seq<Byte> {
    if draws == [] then [] else
      (match draws[0] case Data(bytes) => bytes case Failed => []) + Bytes(draws[1..])
  }

  /** What on_write puts in a buffer of `capacity` that already holds `done`. */
  ghost function Fill(capacity: nat, done: seq<Byte>, source: seq<Draw>): Filled
    decreases |source|
  {
    if source == [] then Filled(done, [], [], true)
    else if source[0].Failed? then Filled(done, [], source[1..], false)
    else if source[0].bytes == [] then Filled(done, [], source[1..], true)
    else if |done| + |source[0].bytes| > capacity then Filled(done, source[0].bytes, source[1..], true)
    else Fill(capacity, done + source[0].bytes, source[1..])
  }

  ghost predicate Fits(capacity: nat, draw: Draw) {
    draw.Data? ==> |draw.bytes| <= capacity
  }

  ghost predicate AllFit(capacity: nat, source: seq<Draw>) {
    forall i :: 0 <= i < |source| ==> Fits(capacity, source[i])
  }

  ghost predicate NothingToSend(source: seq<Draw>) {
    source == [] || source[0] == Data([])
  }

  /** No byte is lost, repeated or reordered, and a round stops only when the next frame does not fit. */
  lemma {:induction false} FillConserves(capacity: nat, done: seq<Byte>, source: seq<Draw>)
    requires |done| <= capacity
    ensures var f := Fill(capacity, done, source);
            && |f.rest| <= |source| && f.rest == source[|source| - |f.rest|..]
            && f.out + f.stash == done + Bytes(source[..|source| - |f.rest|])
            && done <= f.out && |f.out| <= capacity
            && (f.stash != [] ==> |f.out| + |f.stash| > capacity)
    decreases |source|
  {
    if source != [] {
      assert source[..1][1..] == [];
      if source[0].Data? && source[0].bytes != [] && |done| + |source[0].bytes| <= capacity {
        FillConserves(capacity, done + source[0].bytes, source[1..]);
        var f := Fill(capacity, done, source);
        var n := |source| - |f.rest|;
        assert source[..n][1..] == source[1..][..n - 1];
        assert done + source[0].bytes + Bytes(source[1..][..n - 1]) == done + Bytes(source[..n]);
      }
    }
  }

  /** If every frame fits the buffer, so does the stash, and a round that succeeds and writes nothing means
      that there was nothing to write. */
  lemma {:induction false} FillMakesProgress(capacity: nat, done: seq<Byte>, source: seq<Draw>)
    requires |done| <= capacity && AllFit(capacity, source)
    ensures var f := Fill(capacity, done, source);
            && |f.stash| <= capacity
            && (f.ok ==> (f.out == [] <==> done == [] && NothingToSend(source)))
            && (f.out == [] ==> f.stash == [])
    decreases |source|
  {
    if source != [] {
      assert Fits(capacity, source[0]);
      if source[0].Data? && source[0].bytes != [] && |done| + |source[0].bytes| <= capacity {
        FillMakesProgress(capacity, done + source[0].bytes, source[1..]);
      }
    }
  }

  /** What the protocol library has to promise, on the first frame after an idle period: a frame larger
      than the buffer leaves the round empty, so that nothing is written, and a stash that the next round
      would copy past the end of the buffer. */
  lemma FirstFrameIsWrittenIff(capacity: nat, source: seq<Draw>)
    requires !NothingToSend(source) && source[0].Data?
    ensures Fill(capacity, [], source).out != [] <==> Fits(capacity, source[0])
    ensures !Fits(capacity, source[0]) ==> Fill(capacity, [], source).stash == source[0].bytes
  {
    if Fits(capacity, source[0]) {
      FillConserves(capacity, [] + source[0].bytes, source[1..]);
    }
  }

  /** Five bytes for a buffer of four. */
  lemma OversizedFrame()
    ensures var f := Fill(4, [], [Data([1, 2, 3, 4, 5])]); f.out == [] && f.ok && |f.stash| > 4
  {
  }

  ghost predicate AllSending(source: seq<Draw>) {
    forall i :: 0 <= i < |source| ==> source[i].Data? && source[i].bytes != []
  }

  lemma {:induction false} SendingNeverFails(capacity: nat, done: seq<Byte>, source: seq<Draw>)
    requires AllSending(source)
    ensures Fill(capacity, done, source).ok
    ensures source != [] ==> |Fill(capacity, done, source).rest| < |source|
    ensures Fill(capacity, done, source).rest != [] ==> Fill(capacity, done, source).stash != []
    decreases |source|
  {
    if source != [] && |done| + |source[0].bytes| <= capacity {
      SendingNeverFails(capacity, done + source[0].bytes, source[1..]);
    }
  }

  lemma {:induction false} BytesConcat(a: seq<Draw>, b: seq<Draw>)
    ensures Bytes(a + b) == Bytes(a) + Bytes(b)
  {
    if a == [] {
      assert a + b == b;
    } else {
      BytesConcat(a[1..], b);
      assert (a + b)[1..] == a[1..] + b;
    }
  }

  class Http2Handler {
    var stash: seq<Byte>
    var source: seq<Draw>

    constructor ()
      ensures stash == [] && source == []
    {
      stash, source := [], [];
    }

    /** on_write. */
    method OnWrite(buffer: array<Byte>) returns (rv: int, len: nat)
      requires |stash| <= buffer.Length
      modifies this, buffer
      ensures var f := Fill(buffer.Length, old(stash), old(source));
              && stash == f.stash && source == f.rest && (rv == if f.ok then 0 else -1)
              && len <= buffer.Length && buffer[..len] == f.out
    {
      rv, len := 0, 0;
      if stash != [] {
        CopyAt(buffer, 0, stash);
        len := |stash|;
        stash := [];
      }
      assert buffer[..len] == old(stash);
      ghost var goal := Fill(buffer.Length, old(stash), old(source));
      while source != []
        invariant len <= buffer.Length && stash == []
        invariant Fill(buffer.Length, buffer[..len], source) == goal
        decreases |source|
      {
        var data := source[0];
        source := source[1..];
        if data.Failed? {
          rv := -1;
          return;
        }
        if data.bytes == [] {
          return;
        }
        if len + |data.bytes| > buffer.Length {
          stash := data.bytes;
          return;
        }
        ghost var done := buffer[..len];
        CopyAt(buffer, len, data.bytes);
        len := len + |data.bytes|;
        assert buffer[..len] == done + data.bytes;
      }
    }
  }

  method CopyAt(buffer: array<Byte>, at: nat, data: seq<Byte>)
    requires at + |data| <= buffer.Length
    modifies buffer
    ensures buffer[..at + |data|] == old(buffer[..at]) + data
  {
    forall i | 0 <= i < |data| {
      buffer[at + i] := data[i];
    }
  }

  // The connection.

  datatype Event =
    | Submit(draw: Draw)
    | WriteEvent(shouldStop: bool)
    | CompleteEvent(ok: bool, shouldStop: bool)

  /** The stash, the draws still to come, the bytes drawn and handed over so far, and those of the last write. */
  datatype Session = Session(
    stash: seq<Byte>, source: seq<Draw>, drawn: seq<Byte>, handed: seq<Byte>, inFlight: seq<Byte>,
    writing: bool, stopped: bool)

  function NewSession(): Session {
    Session([], [], [], [], [], false, false)
  }

  /** do_write. */
  ghost function Written(capacity: nat, s: Session, shouldStop: bool): Session {
    if s.stopped || s.writing then s else
    var f := Fill(capacity, s.stash, s.source);
    var t := s.(stash := f.stash, source := f.rest, drawn := s.drawn + Taken(capacity, s));
    if !f.ok then t.(stopped := true)
    else if f.out == [] then t.(stopped := shouldStop)
    else t.(handed := s.handed + f.out, inFlight := f.out, writing := true)
  }

  /** The bytes that one round draws. */
  ghost function Taken(capacity: nat, s: Session): seq<Byte> {
    var n := |Fill(capacity, s.stash, s.source).rest|;
    if n <= |s.source| then Bytes(s.source[..|s.source| - n]) else []
  }

  ghost function Step(capacity: nat, s: Session, e: Event): Session {
    match e
    case Submit(draw) => s.(source := s.source + [draw])
    case WriteEvent(shouldStop) => Written(capacity, s, shouldStop)
    case CompleteEvent(ok, shouldStop) =>
      if ok then Written(capacity, s.(writing := false), shouldStop) else s.(stopped := true)
  }

  ghost function Run(capacity: nat, events: seq<Event>): Session {
    if events == [] then NewSession() else Step(capacity, Run(capacity, events[..|events| - 1]), events[|events| - 1])
  }

  ghost function Submitted(events: seq<Event>): seq<Draw> {
    if events == [] then [] else
      Submitted(events[..|events| - 1]) +
      if events[|events| - 1].Submit? then [events[|events| - 1].draw] else []
  }

  /** Every frame fits the buffer; until the connection stops, the bytes handed over and the stash are the
      bytes drawn; the write in progress is the last part handed over. */
  ghost predicate Good(capacity: nat, s: Session) {
    && |s.stash| <= capacity && AllFit(capacity, s.source)
    && (!s.stopped ==> s.handed + s.stash == s.drawn)
    && (s.writing ==> |s.inFlight| <= |s.handed| && s.inFlight == s.handed[|s.handed| - |s.inFlight|..])
  }

  /** One round: nothing is lost, and a connection that is then neither writing nor stopped has nothing left. */
  lemma WrittenKeeps(capacity: nat, s: Session, shouldStop: bool)
    requires Good(capacity, s)
    ensures var t := Written(capacity, s, shouldStop);
            && Good(capacity, t)
            && t.drawn + Bytes(t.source) == s.drawn + Bytes(s.source)
            && (!t.stopped && !t.writing ==> t.stash == [] && t.handed == t.drawn && NothingToSend(s.source))
  {
    hide Fill;
    hide Bytes;
    FillConserves(capacity, s.stash, s.source);
    FillMakesProgress(capacity, s.stash, s.source);
    var f := Fill(capacity, s.stash, s.source);
    var n := |s.source| - |f.rest|;
    BytesConcat(s.source[..n], f.rest);
    assert s.source[..n] + f.rest == s.source;
    assert s.drawn + Bytes(s.source[..n]) + Bytes(f.rest) == s.drawn + Bytes(s.source);
    assert !s.stopped ==> s.handed + (f.out + f.stash) == s.drawn + Bytes(s.source[..n]) by {
      assert !s.stopped ==> s.handed + (s.stash + Bytes(s.source[..n])) == s.drawn + Bytes(s.source[..n]);
    }
  }

  ghost predicate Idle(s: Session) {
    s.stash == [] && NothingToSend(s.source)
  }

  /** When a write is started, and when the connection stops: a connection that is neither writing nor stopped writes
      if it has anything to send; otherwise it stops if it should.  An error of the library stops it. */
  lemma WriteStartsIff(capacity: nat, s: Session, shouldStop: bool)
    requires Good(capacity, s)
    ensures var t := Written(capacity, s, shouldStop);
            && (s.stopped || s.writing ==> t == s)
            && (!s.stopped && !s.writing && Fill(capacity, s.stash, s.source).ok ==>
                  (t.writing <==> !Idle(s)) && (t.stopped <==> Idle(s) && shouldStop))
            && (!s.stopped && !s.writing && !Fill(capacity, s.stash, s.source).ok ==> t.stopped && !t.writing)
            && (!t.writing ==> t.handed == s.handed)
  {
    hide Fill;
    FillConserves(capacity, s.stash, s.source);
    FillMakesProgress(capacity, s.stash, s.source);
  }

  /** A round goes wrong exactly when the library reports an error before it has nothing to send and before a frame
      does not fit. */
  lemma {:induction false} FillFailsIff(capacity: nat, done: seq<Byte>, source: seq<Draw>)
    ensures !Fill(capacity, done, source).ok <==>
              exists n :: 0 <= n < |source| && source[n].Failed? && AllSending(source[..n])
                          && |done| + |Bytes(source[..n])| <= Max(capacity, |done|)
    decreases |source|
  {
    if source != [] {
      assert source[..0] == [];
      FillFailsIff(capacity, done + (if source[0].Data? then source[0].bytes else []), source[1..]);
      forall n | 0 <= n < |source| - 1
        ensures source[1..][..n] == source[..n + 1][1..] && source[..n + 1][0] == source[0]
      {
      }
    }
  }

  lemma StepKeeps(capacity: nat, s: Session, e: Event)
    requires Good(capacity, s) && (e.Submit? ==> Fits(capacity, e.draw))
    ensures var t := Step(capacity, s, e);
            && Good(capacity, t)
            && t.drawn + Bytes(t.source) == s.drawn + Bytes(s.source) + (if e.Submit? then Bytes([e.draw]) else [])
  {
    hide Bytes;
    hide Written;
    match e {
      case Submit(draw) =>
        BytesConcat(s.source, [draw]);
        assert s.drawn + (Bytes(s.source) + Bytes([draw])) == s.drawn + Bytes(s.source) + Bytes([draw]);
      case WriteEvent(shouldStop) =>
        WrittenKeeps(capacity, s, shouldStop);
      case CompleteEvent(ok, shouldStop) =>
        WrittenKeeps(capacity, s.(writing := false), shouldStop);
    }
  }

  /** For every run over frames that fit: the bytes drawn and those still to be drawn are exactly the bytes
      of the frames submitted, in order; and until the connection stops, bytes handed over ++ stash == bytes
      drawn. */
  lemma {:induction false} RunDelivers(capacity: nat, events: seq<Event>)
    requires forall i :: 0 <= i < |events| && events[i].Submit? ==> Fits(capacity, events[i].draw)
    ensures Good(capacity, Run(capacity, events))
    ensures var s := Run(capacity, events); s.drawn + Bytes(s.source) == Bytes(Submitted(events))
    decreases |events|
  {
    hide Bytes;
    hide Step;
    if events == [] {
      EmptyBytes();
    } else {
      var before, e := events[..|events| - 1], events[|events| - 1];
      RunDelivers(capacity, before);
      StepKeeps(capacity, Run(capacity, before), e);
      if e.Submit? {
        BytesConcat(Submitted(before), [e.draw]);
      } else {
        assert Submitted(events) == Submitted(before);
      }
    }
  }

  lemma EmptyBytes()
    ensures Bytes([]) == [] && NewSession().drawn + Bytes([]) == Bytes([])
  {
  }

  /** A connection with nothing but frames to send has handed all of them over after one completion for each,
      and one for the stash. */
  lemma {:induction false} CompletionsSendAll(capacity: nat, s: Session, n: nat)
    requires Good(capacity, s) && !s.stopped && AllSending(s.source) && n > |s.source|
    ensures Completions(capacity, s, n).handed == s.drawn + Bytes(s.source)
    ensures !Completions(capacity, s, n).stopped
    decreases n
  {
    hide Bytes;
    hide Step;
    var t := Step(capacity, s, CompleteEvent(true, false));
    StepKeeps(capacity, s, CompleteEvent(true, false));
    RoundShrinks(capacity, s);
    assert s.drawn + Bytes(s.source) + [] == s.drawn + Bytes(s.source);
    if n > 1 {
      CompletionsSendAll(capacity, t, n - 1);
    } else {
      EmptyBytes();
      assert t.drawn + [] == t.drawn && t.handed + [] == t.handed;
    }
  }

  lemma RoundShrinks(capacity: nat, s: Session)
    requires Good(capacity, s) && !s.stopped && AllSending(s.source)
    ensures var t := Step(capacity, s, CompleteEvent(true, false));
            && !t.stopped && AllSending(t.source)
            && (s.source != [] ==> |t.source| < |s.source|)
            && (s.source == [] ==> t.source == [] && t.stash == [])
  {
    hide Bytes;
    FillConserves(capacity, s.stash, s.source);
    SendingNeverFails(capacity, s.stash, s.source);
  }

  ghost function Completions(capacity: nat, s: Session, n: nat): Session
    decreases n
  {
    if n == 0 then s else Completions(capacity, Step(capacity, s, CompleteEvent(true, false)), n - 1)
  }

  class Connection {
    const outbuf: array<Byte>
    const handler: Http2Handler
    var writing: bool
    var stopped: bool

    // History: the bytes drawn from the library, those handed to the socket, those of the last write.
    ghost var drawn: seq<Byte>
    ghost var handed: seq<Byte>
    ghost var inFlight: seq<Byte>

    ghost function View(): Session
      reads this, handler
    {
      Session(handler.stash, handler.source, drawn, handed, inFlight, writing, stopped)
    }

    /** The buffer that is being sent holds what was handed over. */
    ghost predicate Valid()
      reads this, handler, outbuf
    {
      && Good(outbuf.Length, View())
      && (writing ==> |inFlight| <= outbuf.Length && outbuf[..|inFlight|] == inFlight)
    }

    constructor ()
      ensures Valid() && fresh(this) && fresh(outbuf) && fresh(handler)
      ensures outbuf.Length == 64 * 1024 && View() == NewSession()
    {
      outbuf := new Byte[64 * 1024];
      handler := new Http2Handler();
      writing, stopped := false, false;
      drawn, handed, inFlight := [], [], [];
      new;
      assert handed + handler.stash == drawn && handler.source == [];
    }

    /** do_write: the session after it; and nothing touches the output buffer while it is being sent. */
    method DoWrite(shouldStop: bool)
      requires Valid()
      modifies this, handler, outbuf
      ensures Valid() && View() == Written(outbuf.Length, old(View()), shouldStop)
      ensures drawn + Bytes(handler.source) == old(drawn + Bytes(handler.source))
      ensures old(stopped || writing) ==> outbuf[..] == old(outbuf[..])
      ensures !stopped && !writing ==> handler.stash == [] && handed == drawn && old(NothingToSend(handler.source))
    {
      WrittenKeeps(outbuf.Length, View(), shouldStop);
      hide Fill;
      hide Bytes;
      hide Good;
      if stopped || writing {
        return;
      }
      ghost var taken := Taken(outbuf.Length, View());
      var rv, len := handler.OnWrite(outbuf);
      drawn := drawn + taken;
      if rv != 0 {
        stopped := true;
        return;
      }
      if len == 0 {
        if shouldStop {
          stopped := true;
        }
        return;
      }
      inFlight := outbuf[..len];
      handed := handed + inFlight;
      writing := true;
    }

    /** The completion handler of the asynchronous write. */
    method WriteCompleted(ok: bool, shouldStop: bool)
      requires Valid()
      modifies this, handler, outbuf
      ensures Valid() && View() == Step(outbuf.Length, old(View()), CompleteEvent(ok, shouldStop))
      ensures drawn + Bytes(handler.source) == old(drawn + Bytes(handler.source))
      ensures !stopped && !writing ==> handler.stash == [] && handed == drawn
    {
      if !ok {
        stopped := true;
        return;
      }
      writing := false;
      DoWrite(shouldStop);
    }
  }

  /** The connection after any sequence of events is exactly what the events say. */
  method AnyRun(events: seq<Event>) returns (c: Connection)
    requires forall i :: 0 <= i < |events| && events[i].Submit? ==> Fits(64 * 1024, events[i].draw)
    ensures c.Valid() && c.View() == Run(64 * 1024, events)
    ensures c.drawn + Bytes(c.handler.source) == Bytes(Submitted(events))
    ensures !c.stopped ==> c.handed + c.handler.stash == c.drawn
    ensures c.writing ==> c.outbuf[..|c.inFlight|] == c.inFlight
  {
    hide Bytes;
    hide Written;
    c := new Connection();
    for k := 0 to |events|
      invariant c.Valid() && fresh(c) && fresh(c.handler) && fresh(c.outbuf) && c.outbuf.Length == 64 * 1024
      invariant c.View() == Run(64 * 1024, events[..k])
    {
      assert events[..k + 1][..k] == events[..k];
      match events[k] {
        case Submit(draw) => c.handler.source := c.handler.source + [draw];
        case WriteEvent(shouldStop) => c.DoWrite(shouldStop);
        case CompleteEvent(ok, shouldStop) => c.WriteCompleted(ok, shouldStop);
      }
    }
    assert events[..|events|] == events;
    RunDelivers(64 * 1024, events);
  }
}
