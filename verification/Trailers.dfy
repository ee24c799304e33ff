/** Trailers that come after the end of their stream: when exactly this happens, told from the events alone. */
module Trailers {

  import opened Basics
  import opened Response

  /** Some step of the run submits trailers on a stream that has ended. */
  ghost predicate LateRun(s: State, events: seq<Event>)
    requires Sound(s)
    decreases |events|
  {
    events != [] &&
    (StepSound(s, events[0]);
     (s.ended && Step(s, events[0]).submitted != s.submitted) || LateRun(Step(s, events[0]), events[1..]))
  }

  // ---------------------------------------------------------------------------------------
  // The condition on the events
  // ---------------------------------------------------------------------------------------

  ghost function FirstEnd(events: seq<Event>): (n: nat)
    ensures n <= |events| && (n < |events| ==> events[n].EndEvent?)
  {
    if events == [] || events[0].EndEvent? then 0 else 1 + FirstEnd(events[1..])
  }

  /** The status of the first head; 200 if there is none. */
  ghost function FirstStatus(events: seq<Event>): nat {
    if events == [] then 200
    else if events[0].WriteHeadEvent? then events[0].status
    else FirstStatus(events[1..])
  }

  /** The trailers written last, or `before`. */
  ghost function Waiting(before: seq<Header>, events: seq<Event>): seq<Header>
    decreases |events|
  {
    if events == [] then before
    else Waiting(if events[0].TrailerEvent? then events[0].trailers else before, events[1..])
  }

  /** The first read that asks for the last of `left` bytes. */
  ghost function Exhausts(left: nat, events: seq<Event>): (n: nat)
    ensures n <= |events|
  {
    if events == [] then 0
    else if events[0].ReadEvent? then
      if left <= events[0].len then 0 else 1 + Exhausts(left - events[0].len, events[1..])
    else 1 + Exhausts(left, events[1..])
  }

  ghost predicate WritesTrailers(events: seq<Event>) {
    events != [] && ((events[0].TrailerEvent? && events[0].trailers != []) || WritesTrailers(events[1..]))
  }

  ghost predicate ReadsThenWritesTrailers(events: seq<Event>) {
    events != [] &&
    if events[0].ReadEvent? then WritesTrailers(events[1..]) else ReadsThenWritesTrailers(events[1..])
  }

  /** After a body of `left` unread bytes: a read exhausts it with no trailers waiting, and then trailers are
      written; or it is read again, and then trailers are written. */
  ghost predicate LateAfterBody(left: nat, waiting: seq<Header>, events: seq<Event>) {
    var r := Exhausts(left, events);
    r < |events| &&
    if Waiting(waiting, events[..r]) == [] then WritesTrailers(events[r + 1..])
    else ReadsThenWritesTrailers(events[r + 1..])
  }

  /** The first body is refused if the response was started before it with a status that has no body. */
  ghost predicate BodyRefused(head: bool, pushed: bool, before: seq<Event>) {
    StartsOf(pushed, before) > 0 && !ExpectResponseBody(head, FirstStatus(before))
  }

  ghost predicate TooLate(head: bool, pushed: bool, events: seq<Event>) {
    var e := FirstEnd(events);
    && e < |events| && !BodyRefused(head, pushed, events[..e])
    && LateAfterBody(|events[e].data|, Waiting([], events[..e]), events[e + 1..])
  }

  /** The trailers that an event writes, if any. */
  ghost function Written(e: Event): seq<seq<Header>> {
    if e.TrailerEvent? && e.trailers != [] then [e.trailers] else []
  }

  ghost function WrittenBy(events: seq<Event>): seq<seq<Header>> {
    if events == [] then [] else Written(events[0]) + WrittenBy(events[1..])
  }

  /** What is submitted after a body of `left` unread bytes: the trailers that wait when a read exhausts it, and all
      that are written later. */
  ghost function SubmittedAfterBody(left: nat, waiting: seq<Header>, events: seq<Event>): seq<seq<Header>> {
    var r := Exhausts(left, events);
    if r == |events| then [] else
    var w := Waiting(waiting, events[..r]);
    (if w == [] then [] else [w]) + WrittenBy(events[r + 1..])
  }

  ghost function SubmittedOf(head: bool, pushed: bool, events: seq<Event>): seq<seq<Header>> {
    var e := FirstEnd(events);
    if e == |events| || BodyRefused(head, pushed, events[..e]) then [] else
    SubmittedAfterBody(|events[e].data|, Waiting([], events[..e]), events[e + 1..])
  }

  // ---------------------------------------------------------------------------------------
  // After the end of the body
  // ---------------------------------------------------------------------------------------

  /** One step of a response whose body is exhausted. */
  lemma GoneStep(s: State, e: Event)
    requires Sound(s) && s.eof
    ensures var t := Step(s, e);
            && Sound(t) && t.eof && (t.ended <==> s.ended || e.ReadEvent?)
            && (t.submitted != s.submitted <==> e.TrailerEvent? && e.trailers != [])
            && t.submitted == s.submitted + Written(e)
  {
    StepSound(s, e);
    match e {
      case WriteHeadEvent(status, headers) => assert Step(s, e) == WriteHead(s, status, headers);
      case EndEvent(data) => assert Step(s, e) == End(s, data);
      case TrailerEvent(trailers) => assert Step(s, e) == WriteTrailer(s, trailers);
      case PromiseEvent => assert Step(s, e) == PushPromiseSent(s);
      case ReadEvent(len) => assert Step(s, e) == CallRead(s, len);
    }
  }

  lemma {:induction false} LateWhenEnded(s: State, events: seq<Event>)
    requires Sound(s) && s.eof && s.ended
    ensures LateRun(s, events) <==> WritesTrailers(events)
    decreases |events|
  {
    if events != [] {
      hide Step;
      hide Sound;
      GoneStep(s, events[0]);
      LateWhenEnded(Step(s, events[0]), events[1..]);
    }
  }

  lemma {:induction false} LateWhenGone(s: State, events: seq<Event>)
    requires Sound(s) && s.eof && !s.ended
    ensures LateRun(s, events) <==> ReadsThenWritesTrailers(events)
    decreases |events|
  {
    if events != [] {
      hide Step;
      hide Sound;
      GoneStep(s, events[0]);
      if events[0].ReadEvent? {
        LateWhenEnded(Step(s, events[0]), events[1..]);
      } else {
        LateWhenGone(Step(s, events[0]), events[1..]);
      }
    }
  }

  // ---------------------------------------------------------------------------------------
  // While the body is read
  // ---------------------------------------------------------------------------------------

  lemma ReadingStep(s: State, e: Event)
    requires Sound(s) && s.generator.Body?
    ensures var t := Step(s, e); var left := s.generator.left;
            && Sound(t) && !s.ended
            && (!e.ReadEvent? ==> t.generator == s.generator
                                  && t.trailers == if e.TrailerEvent? then e.trailers else s.trailers)
            && (e.ReadEvent? && left > e.len ==>
                  t.generator == s.generator.(left := left - e.len) && t.trailers == s.trailers)
            && (e.ReadEvent? && left <= e.len ==>
                  && t.eof && (t.ended <==> s.trailers == [])
                  && t.submitted == s.submitted + if s.trailers == [] then [] else [s.trailers])
            && (!t.eof ==> t.submitted == s.submitted)
            && (!(e.ReadEvent? && left <= e.len) ==> t.generator.Body? && !t.eof)
  {
    StepSound(s, e);
    BodyStep(s, e);
    match e {
      case WriteHeadEvent(status, headers) => assert Step(s, e) == WriteHead(s, status, headers);
      case EndEvent(data) => assert Step(s, e) == End(s, data);
      case TrailerEvent(trailers) => assert Step(s, e) == WriteTrailer(s, trailers);
      case PromiseEvent => assert Step(s, e) == PushPromiseSent(s);
      case ReadEvent(len) => assert Step(s, e) == CallRead(s, len);
    }
  }

  lemma {:induction false} LateWhileReading(s: State, events: seq<Event>)
    requires Sound(s) && s.generator.Body?
    ensures LateRun(s, events) <==> LateAfterBody(s.generator.left, s.trailers, events)
    decreases |events|
  {
    var left := s.generator.left;
    if events != [] {
      hide Step;
      hide Sound;
      var e := events[0];
      ReadingStep(s, e);
      var t := Step(s, e);
      if e.ReadEvent? && left <= e.len {
        assert events[..0] == [];
        if s.trailers == [] {
          LateWhenEnded(t, events[1..]);
        } else {
          LateWhenGone(t, events[1..]);
        }
      } else {
        LateWhileReading(t, events[1..]);
        var left1 := if e.ReadEvent? then left - e.len else left;
        AfterBodyUnfold(left, s.trailers, events, left1, t.trailers);
      }
    }
  }

  lemma AfterBodyUnfold(left: nat, waiting: seq<Header>, events: seq<Event>, left1: nat, waiting1: seq<Header>)
    requires events != [] && !(events[0].ReadEvent? && left <= events[0].len)
    requires left1 == if events[0].ReadEvent? then left - events[0].len else left
    requires waiting1 == if events[0].TrailerEvent? then events[0].trailers else waiting
    ensures LateAfterBody(left, waiting, events) <==> LateAfterBody(left1, waiting1, events[1..])
  {
    var r := Exhausts(left, events);
    assert r == 1 + Exhausts(left1, events[1..]);
    if r < |events| {
      assert events[..r][1..] == events[1..][..r - 1];
      assert events[r + 1..] == events[1..][r..];
    }
  }

  // ---------------------------------------------------------------------------------------
  // Before there is a body
  // ---------------------------------------------------------------------------------------

  /** A response without a body so far takes no more of one exactly if it was started without. */
  ghost predicate Bodiless(s: State) {
    && Sound(s) && s.generator.Deferred?
    && (s.phase == BodyStarted <==> s.starts > 0 && !ExpectResponseBody(s.head, s.status))
    && (s.starts > 0 ==> s.phase != Initial)
  }

  lemma BodilessStep(s: State, e: Event)
    requires Bodiless(s) && (e.EndEvent? ==> s.phase == BodyStarted)
    ensures var t := Step(s, e);
            && Bodiless(t) && !s.ended && t.head == s.head && t.submitted == s.submitted
            && t.trailers == (if e.TrailerEvent? then e.trailers else s.trailers)
            && t.status == (if e.WriteHeadEvent? && s.phase == Initial then e.status else s.status)
            && (t.phase == Initial <==> s.phase == Initial && !e.WriteHeadEvent?)
            && (s.phase == BodyStarted ==> t.phase == BodyStarted)
  {
    StepSound(s, e);
    match e {
      case WriteHeadEvent(status, headers) => assert Step(s, e) == WriteHead(s, status, headers);
      case EndEvent(data) => assert Step(s, e) == s;
      case TrailerEvent(trailers) => assert Step(s, e) == WriteTrailer(s, trailers);
      case PromiseEvent => assert Step(s, e) == PushPromiseSent(s);
      case ReadEvent(len) => assert Step(s, e) == s;
    }
  }

  lemma {:induction false} NeverLate(s: State, events: seq<Event>)
    requires Bodiless(s) && s.phase == BodyStarted
    ensures !LateRun(s, events)
    decreases |events|
  {
    if events != [] {
      hide Step;
      BodilessStep(s, events[0]);
      NeverLate(Step(s, events[0]), events[1..]);
    }
  }

  ghost predicate NoEnd(events: seq<Event>) {
    forall i :: 0 <= i < |events| ==> !events[i].EndEvent?
  }

  /** What the events before the first body leave. */
  lemma {:induction false} BeforeBody(s: State, before: seq<Event>, more: seq<Event>)
    requires Bodiless(s) && NoEnd(before)
    ensures var t := Run(s, before);
            && Bodiless(t) && t.head == s.head && t.trailers == Waiting(s.trailers, before)
            && (s.phase == Initial && s.status == 200 ==> t.status == FirstStatus(before))
            && (s.phase != Initial ==> t.status == s.status)
            && (LateRun(s, before + more) <==> LateRun(t, more))
    decreases |before|
  {
    if before == [] {
      assert before + more == more;
    } else {
      hide Step;
      hide Bodiless;
      var e := before[0];
      BodilessStep(s, e);
      assert Sound(s) by { IsSound(s); }
      assert (before + more)[1..] == before[1..] + more;
      BeforeBody(Step(s, e), before[1..], more);
    }
  }

  lemma IsSound(s: State)
    requires Bodiless(s)
    ensures Sound(s) && !s.ended
  {
  }

  lemma {:induction false} NoEndBeforeFirst(events: seq<Event>)
    ensures NoEnd(events[..FirstEnd(events)])
  {
    if events != [] && !events[0].EndEvent? {
      NoEndBeforeFirst(events[1..]);
      var n := FirstEnd(events);
      assert events[..n] == [events[0]] + events[1..][..n - 1];
    }
  }

  lemma EndAccepted(s: State, data: seq<Byte>)
    requires Bodiless(s) && s.phase != BodyStarted
    ensures var t := Step(s, EndEvent(data));
            && Sound(t) && t.generator == Body(data, |data|) && t.trailers == s.trailers
            && !t.eof && t.submitted == s.submitted
  {
    StepSound(s, EndEvent(data));
  }

  /** For every order of events: trailers are submitted after the end of the stream if and only if the events
      say so. */
  lemma TooLateIff(head: bool, pushed: bool, events: seq<Event>)
    ensures LateRun(New(head, pushed), events) <==> TooLate(head, pushed, events)
  {
    hide Step;
    hide LateAfterBody;
    var e := FirstEnd(events);
    var before := events[..e];
    var s0 := New(head, pushed);
    var s := Run(s0, before);
    NoEndBeforeFirst(events);
    BeforeBody(s0, before, events[e..]);
    assert before + events[e..] == events;
    StartsClosedForm(head, pushed, before);
    assert s.phase == BodyStarted <==> BodyRefused(head, pushed, before);
    if e < |events| {
      var data := events[e].data;
      assert events[e..][0] == EndEvent(data) && events[e..][1..] == events[e + 1..];
      if s.phase == BodyStarted {
        NeverLate(s, events[e..]);
      } else {
        EndAccepted(s, data);
        LateWhileReading(Step(s, EndEvent(data)), events[e + 1..]);
      }
    }
  }

  /** The body is read to its end, and then trailers are written. */
  lemma TooLateExample(h: Header)
    ensures LateRun(New(false, false), [EndEvent([]), ReadEvent(1), TrailerEvent([h])])
  {
    var events := [EndEvent([]), ReadEvent(1), TrailerEvent([h])];
    var after := events[1..];
    assert after == [ReadEvent(1), TrailerEvent([h])] && after[..0] == [] && after[1..] == [TrailerEvent([h])];
    assert Exhausts(0, after) == 0;
    assert WritesTrailers(after[1..]);
    assert events[..0] == [];
    TooLateIff(false, false, events);
  }

  // ---------------------------------------------------------------------------------------
  // Which trailers are submitted
  // ---------------------------------------------------------------------------------------

  lemma {:induction false} SubmittedWhenGone(s: State, events: seq<Event>)
    requires Sound(s) && s.eof
    ensures Run(s, events).submitted == s.submitted + WrittenBy(events)
    decreases |events|
  {
    if events != [] {
      hide Step;
      hide Sound;
      GoneStep(s, events[0]);
      SubmittedWhenGone(Step(s, events[0]), events[1..]);
    }
  }

  lemma {:induction false} SubmittedWhileReading(s: State, events: seq<Event>)
    requires Sound(s) && s.generator.Body? && !s.eof
    ensures Run(s, events).submitted == s.submitted + SubmittedAfterBody(s.generator.left, s.trailers, events)
    decreases |events|
  {
    hide Step;
    hide Sound;
    var left := s.generator.left;
    if events != [] {
      var e := events[0];
      ReadingStep(s, e);
      var t := Step(s, e);
      hide SubmittedAfterBody;
      if e.ReadEvent? && left <= e.len {
        SubmittedWhenGone(t, events[1..]);
        SubmittedAtEnd(left, s.trailers, events);
      } else {
        SubmittedWhileReading(t, events[1..]);
        var left1 := if e.ReadEvent? then left - e.len else left;
        SubmittedUnfold(left, s.trailers, events, left1, t.trailers);
      }
    }
  }

  lemma SubmittedAtEnd(left: nat, waiting: seq<Header>, events: seq<Event>)
    requires events != [] && events[0].ReadEvent? && left <= events[0].len
    ensures SubmittedAfterBody(left, waiting, events)
            == (if waiting == [] then [] else [waiting]) + WrittenBy(events[1..])
  {
    assert Exhausts(left, events) == 0 && events[..0] == [];
  }

  lemma SubmittedUnfold(left: nat, waiting: seq<Header>, events: seq<Event>, left1: nat, waiting1: seq<Header>)
    requires events != [] && !(events[0].ReadEvent? && left <= events[0].len)
    requires left1 == if events[0].ReadEvent? then left - events[0].len else left
    requires waiting1 == if events[0].TrailerEvent? then events[0].trailers else waiting
    ensures SubmittedAfterBody(left, waiting, events) == SubmittedAfterBody(left1, waiting1, events[1..])
  {
    hide WrittenBy;
    var r := Exhausts(left, events);
    assert r == 1 + Exhausts(left1, events[1..]);
    hide Exhausts;
    if r < |events| {
      var before := events[..r];
      assert before[0] == events[0] && before[1..] == events[1..][..r - 1];
      assert Waiting(waiting, before) == Waiting(waiting1, before[1..]);
      hide Waiting;
      assert events[r + 1..] == events[1..][r..];
    }
  }

  lemma {:induction false} NothingWhileBodiless(s: State, events: seq<Event>)
    requires Bodiless(s) && s.phase == BodyStarted
    ensures Run(s, events).submitted == s.submitted && Run(s, events).body == s.body
    decreases |events|
  {
    if events != [] {
      hide Step;
      BodilessStep(s, events[0]);
      NothingWhileBodiless(Step(s, events[0]), events[1..]);
    }
  }

  lemma {:induction false} NothingBeforeBody(s: State, before: seq<Event>, more: seq<Event>)
    requires Bodiless(s) && NoEnd(before)
    ensures Bodiless(Run(s, before)) && Run(s, before).submitted == s.submitted
    ensures Sound(s) && Run(s, before + more) == Run(Run(s, before), more)
    decreases |before|
  {
    IsSound(s);
    if before == [] {
      assert before + more == more;
    } else {
      hide Step;
      hide Bodiless;
      BodilessStep(s, before[0]);
      assert (before + more)[1..] == before[1..] + more;
      NothingBeforeBody(Step(s, before[0]), before[1..], more);
    }
  }

  lemma SubmittedFromBody(s: State, data: seq<Byte>, events: seq<Event>)
    requires Bodiless(s) && s.phase != BodyStarted && events != [] && events[0] == EndEvent(data)
    ensures var r := Run(s, events);
            && r.submitted == s.submitted + SubmittedAfterBody(|data|, s.trailers, events[1..])
            && r.body == Some(data)
  {
    hide Step;
    hide SubmittedAfterBody;
    IsSound(s);
    EndAccepted(s, data);
    hide Bodiless;
    var t := Step(s, EndEvent(data));
    SubmittedWhileReading(t, events[1..]);
    DeliveredBy(t, data, |data|, events[1..]);
  }

  lemma NewIsSound(head: bool, pushed: bool)
    ensures Sound(New(head, pushed))
  {
  }

  /** The response before its first body is given. */
  lemma BeforeFirstBody(head: bool, pushed: bool, events: seq<Event>)
    ensures var e, s0 := FirstEnd(events), New(head, pushed); var s := Run(s0, events[..e]);
            && Bodiless(s) && s.submitted == [] && s.body == None && s.trailers == Waiting([], events[..e])
            && (s.phase == BodyStarted <==> BodyRefused(head, pushed, events[..e]))
            && Run(s0, events) == Run(s, events[e..])
  {
    hide Step;
    hide LateRun;
    var e, s0 := FirstEnd(events), New(head, pushed);
    NoEndBeforeFirst(events);
    BeforeBody(s0, events[..e], events[e..]);
    NothingBeforeBody(s0, events[..e], events[e..]);
    assert events[..e] + events[e..] == events;
    StartsClosedForm(head, pushed, events[..e]);
  }

  /** For every order of events: which trailers are submitted, in which order, and which body is taken. */
  lemma SubmittedClosedForm(head: bool, pushed: bool, events: seq<Event>)
    ensures var r := Run(New(head, pushed), events); var e := FirstEnd(events);
            && r.submitted == SubmittedOf(head, pushed, events)
            && r.body == if e < |events| && !BodyRefused(head, pushed, events[..e]) then Some(events[e].data) else None
  {
    hide Step;
    hide SubmittedAfterBody;
    hide BodyRefused;
    hide Waiting;
    hide Bodiless;
    NewIsSound(head, pushed);
    hide Sound;
    hide New;
    var e := FirstEnd(events);
    var s := Run(New(head, pushed), events[..e]);
    BeforeFirstBody(head, pushed, events);
    if e < |events| {
      var data := events[e].data;
      assert events[e..][0] == EndEvent(data) && events[e..][1..] == events[e + 1..];
      if s.phase == BodyStarted {
        NothingWhileBodiless(s, events[e..]);
      } else {
        SubmittedFromBody(s, data, events[e..]);
      }
    } else {
      assert events[e..] == [];
    }
  }
}
