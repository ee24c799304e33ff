/** A server response: headers, an optional push promise, a generated body, trailers. */
module Response {

  import opened Basics

  type Header = (string, string)

  datatype Phase = Initial | HeaderDone | BodyStarted

  /** The body generator: none is left, nothing yet (every read is deferred), or a string with `left` unread. */
  datatype Generator = Gone | Deferred | Body(data: seq<Byte>, left: nat)

  /** The fields of a response, and after them what its handler has seen. */
  datatype State = State(
    head: bool, pushed: bool, promiseSent: bool, phase: Phase, status: nat, headers: seq<Header>,
    generator: Generator, trailers: seq<Header>,
    starts: nat, body: Option<seq<Byte>>, delivered: seq<Byte>, eof: bool, ended: bool,
    submitted: seq<seq<Header>>)

  datatype Event =
    | WriteHeadEvent(status: nat, headers: seq<Header>)
    | EndEvent(data: seq<Byte>)
    | TrailerEvent(trailers: seq<Header>)
    | PromiseEvent
    | ReadEvent(len: nat)

  function New(head: bool, pushed: bool): State {
    State(head, pushed, false, Initial, 200, [], Deferred, [], 0, None, [], false, false, [])
  }

  function ExpectResponseBody(head: bool, status: nat): bool {
    !head && (status == 101 || (status / 100 != 1 && status != 304 && status != 204))
  }

  function StartResponse(s: State): State {
    s.(starts := s.starts + 1,
       phase := if ExpectResponseBody(s.head, s.status) then s.phase else BodyStarted)
  }

  function WriteHead(s: State, status: nat, headers: seq<Header>): State {
    if s.phase != Initial then s else
    var t := s.(status := status, headers := headers, phase := HeaderDone);
    if t.pushed && !t.promiseSent then t else StartResponse(t)
  }

  function End(s: State, data: seq<Byte>): State {
    if s.phase == BodyStarted then s else
    var t := s.(generator := Body(data, |data|), body := Some(data));
    (if t.phase == Initial then WriteHead(t, t.status, []) else t).(phase := BodyStarted)
  }

  function SendTrailer(s: State): State {
    if s.trailers == [] then s else s.(submitted := s.submitted + [s.trailers], trailers := [])
  }

  function WriteTrailer(s: State, trailers: seq<Header>): State {
    var t := s.(trailers := trailers);
    if t.generator.Gone? then SendTrailer(t) else t
  }

  function PushPromiseSent(s: State): State {
    if s.promiseSent then s else
    var t := s.(promiseSent := true);
    if t.phase == Initial then t else StartResponse(t)
  }

  ghost predicate LeftFits(s: State) {
    s.generator.Body? ==> s.generator.left <= |s.generator.data|
  }

  /** The string generator: the next `len` bytes at most, and the end of the body when none is left. */
  function Generate(s: State, len: nat): State
    requires LeftFits(s)
  {
    match s.generator
    case Deferred => s
    case Gone => s.(eof := true)
    case Body(data, left) =>
      var n := Min(len, left);
      s.(delivered := s.delivered + data[|data| - left..|data| - left + n],
         eof := s.eof || left == n,
         generator := if left == n then Gone else Body(data, left - n))
  }

  /** call_read; the end of the body ends the stream unless trailers are waiting. */
  function CallRead(s: State, len: nat): State
    requires LeftFits(s)
  {
    var t := Generate(s, len);
    if !t.generator.Gone? then t
    else if t.trailers == [] then t.(ended := true)
    else SendTrailer(t)
  }

  /** Every response that was just created, and every step from it, keeps this. */
  ghost predicate Sound(s: State) {
    && LeftFits(s)
    && (s.eof <==> s.generator.Gone?) && (s.body.None? <==> s.generator.Deferred?)
    && (s.body.None? ==> s.delivered == [])
    && (s.generator.Body? ==>
          && s.body == Some(s.generator.data)
          && s.delivered == s.generator.data[..|s.generator.data| - s.generator.left])
    && (s.eof ==> s.body == Some(s.delivered) && s.trailers == [])
    && (s.body.Some? ==> s.phase == BodyStarted)
    && (s.submitted != [] || s.ended ==> s.eof)
  }

  ghost function Step(s: State, e: Event): State
    requires Sound(s)
  {
    match e
    case WriteHeadEvent(status, headers) => WriteHead(s, status, headers)
    case EndEvent(data) => End(s, data)
    case TrailerEvent(trailers) => WriteTrailer(s, trailers)
    case PromiseEvent => PushPromiseSent(s)
    case ReadEvent(len) => CallRead(s, len)
  }

  ghost function Run(s: State, events: seq<Event>): (r: State)
    requires Sound(s)
    ensures Sound(r)
    decreases |events|
  {
    if events == [] then s else
    StepSound(s, events[0]);
    Run(Step(s, events[0]), events[1..])
  }

  /** A body once accepted stays; what is delivered is a prefix of it, and all of it exactly when the end was
      flagged; trailers are submitted only after that. */
  lemma StepSound(s: State, e: Event)
    requires Sound(s)
    ensures Sound(Step(s, e))
    ensures s.body.Some? ==> Step(s, e).body == s.body
    ensures s.delivered <= Step(s, e).delivered && s.submitted <= Step(s, e).submitted
    ensures s.eof ==> Step(s, e).eof
  {
    match e {
      case EndEvent(data) => EndSound(s, data);
      case ReadEvent(len) => ReadSound(s, len);
      case _ =>
    }
  }

  lemma EndSound(s: State, data: seq<Byte>)
    requires Sound(s)
    ensures var t := End(s, data);
            && Sound(t) && (s.body.Some? ==> t.body == s.body)
            && s.delivered == t.delivered && s.submitted == t.submitted && s.eof == t.eof
  {
  }

  lemma ReadSound(s: State, len: nat)
    requires Sound(s)
    ensures Sound(CallRead(s, len)) && s.delivered <= CallRead(s, len).delivered
    ensures s.submitted <= CallRead(s, len).submitted
    ensures CallRead(s, len).eof <==> s.eof || (s.generator.Body? && s.generator.left <= len)
  {
    if s.generator.Body? {
      var data, left := s.generator.data, s.generator.left;
      var n := Min(len, left);
      assert data[..|data| - left] + data[|data| - left..|data| - left + n] == data[..|data| - left + n];
      assert left == n ==> data[..|data|] == data;
    }
  }

  /** The handler's start_response is called only when the headers are set and, on a pushed response, the
      promise has been sent; and at most once per step. */
  lemma StartOnlyWhenReady(s: State, e: Event)
    requires Sound(s)
    ensures s.starts <= Step(s, e).starts <= s.starts + 1
    ensures Step(s, e).starts > s.starts ==>
              Step(s, e).phase != Initial && (s.pushed ==> Step(s, e).promiseSent)
  {
  }

  predicate SetsHead(e: Event) { e.WriteHeadEvent? || e.EndEvent? }

  /** The first event that sets the headers, and the first promise; the length if there is none. */
  ghost function FirstHead(events: seq<Event>): nat {
    if events == [] || SetsHead(events[0]) then 0 else 1 + FirstHead(events[1..])
  }

  ghost function FirstPromise(events: seq<Event>): nat {
    if events == [] || events[0].PromiseEvent? then 0 else 1 + FirstPromise(events[1..])
  }

  function Count(b: bool): nat { if b then 1 else 0 }

  /** How often a response is started, told from its events alone. */
  ghost function StartsOf(pushed: bool, events: seq<Event>): nat {
    var h, p, n := FirstHead(events), FirstPromise(events), |events|;
    if pushed then Count(h < n && p < n) else Count(h < n) + Count(h < p < n)
  }

  /** For every order of events. */
  lemma StartsClosedForm(head: bool, pushed: bool, events: seq<Event>)
    ensures Run(New(head, pushed), events).starts == StartsOf(pushed, events)
  {
    StartsFromInitial(New(head, pushed), events);
  }

  lemma StartStep(s: State, e: Event)
    requires Sound(s)
    ensures var t := Step(s, e); var already := s.phase != Initial;
            && Sound(t) && t.pushed == s.pushed
            && (t.phase != Initial <==> already || SetsHead(e))
            && (t.promiseSent <==> s.promiseSent || e.PromiseEvent?)
            && t.starts == s.starts
                 + Count(!already && SetsHead(e) && (!s.pushed || s.promiseSent))
                 + Count(already && e.PromiseEvent? && !s.promiseSent)
  {
    StepSound(s, e);
    match e {
      case WriteHeadEvent(status, headers) => assert Step(s, e) == WriteHead(s, status, headers);
      case EndEvent(data) => assert Step(s, e) == End(s, data);
      case TrailerEvent(trailers) => assert Step(s, e) == WriteTrailer(s, trailers);
      case PromiseEvent => assert Step(s, e) == PushPromiseSent(s);
      case ReadEvent(len) => assert Step(s, e) == CallRead(s, len);
    }
  }

  /** The head of a response, told from its events alone: the first event that sets it decides, and no other event
      changes it. */
  lemma HeadClosedForm(head: bool, pushed: bool, events: seq<Event>)
    ensures var r, h := Run(New(head, pushed), events), FirstHead(events);
            && (r.phase == Initial <==> h == |events|)
            && (if h < |events| && events[h].WriteHeadEvent?
                then r.status == events[h].status && r.headers == events[h].headers
                else r.status == 200 && r.headers == [])
  {
    HeadFromInitial(New(head, pushed), events);
  }

  lemma HeadStep(s: State, e: Event)
    requires Sound(s)
    ensures var t := Step(s, e);
            && Sound(t) && (t.phase == Initial <==> s.phase == Initial && !SetsHead(e))
            && (s.phase == Initial && e.WriteHeadEvent? ==> t.status == e.status && t.headers == e.headers)
            && (s.phase == Initial && e.EndEvent? ==> t.status == s.status && t.headers == [])
            && (s.phase != Initial || !SetsHead(e) ==> t.status == s.status && t.headers == s.headers)
  {
    StepSound(s, e);
    match e {
      case WriteHeadEvent(status, headers) => assert Step(s, e) == WriteHead(s, status, headers);
      case EndEvent(data) => assert Step(s, e) == End(s, data);
      case TrailerEvent(trailers) => assert Step(s, e) == WriteTrailer(s, trailers);
      case PromiseEvent => assert Step(s, e) == PushPromiseSent(s);
      case ReadEvent(len) => assert Step(s, e) == CallRead(s, len);
    }
  }

  lemma {:induction false} HeadFromInitial(s: State, events: seq<Event>)
    requires Sound(s) && s.phase == Initial
    ensures var r, h := Run(s, events), FirstHead(events);
            && h <= |events| && (r.phase == Initial <==> h == |events|)
            && (h == |events| ==> r.status == s.status && r.headers == s.headers)
            && (h < |events| && events[h].WriteHeadEvent? ==> r.status == events[h].status && r.headers == events[h].headers)
            && (h < |events| && events[h].EndEvent? ==> r.status == s.status && r.headers == [])
            && (h < |events| ==> SetsHead(events[h]))
    decreases |events|
  {
    hide Sound;
    hide Step;
    if events != [] {
      HeadStep(s, events[0]);
      if SetsHead(events[0]) {
        HeadStays(Step(s, events[0]), events[1..]);
      } else {
        HeadFromInitial(Step(s, events[0]), events[1..]);
      }
    }
  }

  lemma {:induction false} HeadStays(s: State, events: seq<Event>)
    requires Sound(s) && s.phase != Initial
    ensures var r := Run(s, events); r.phase != Initial && r.status == s.status && r.headers == s.headers
    decreases |events|
  {
    hide Sound;
    hide Step;
    if events != [] {
      HeadStep(s, events[0]);
      HeadStays(Step(s, events[0]), events[1..]);
    }
  }

  /** Which responses have a body (section 6.4.1 of RFC 9110): not those to HEAD, and not those with a status of 204,
      304 or from 100 to 199, except 101. */
  lemma ExpectsBodyIff(head: bool, status: nat)
    ensures ExpectResponseBody(head, status)
            <==> !head && (status == 101 || !(100 <= status <= 199 || status == 204 || status == 304))
  {
  }

  lemma {:induction false} StartsFromInitial(s: State, events: seq<Event>)
    requires Sound(s) && s.phase == Initial && !s.promiseSent
    ensures Run(s, events).starts == s.starts + StartsOf(s.pushed, events)
    decreases |events|
  {
    hide Sound;
    hide Step;
    if events != [] {
      StartStep(s, events[0]);
      var t := Step(s, events[0]);
      if SetsHead(events[0]) {
        StartsWithHead(t, events[1..]);
      } else if events[0].PromiseEvent? {
        StartsWithPromise(t, events[1..]);
      } else {
        StartsFromInitial(t, events[1..]);
      }
    }
  }

  lemma {:induction false} StartsWithHead(s: State, events: seq<Event>)
    requires Sound(s) && s.phase != Initial && !s.promiseSent
    ensures Run(s, events).starts == s.starts + Count(FirstPromise(events) < |events|)
    decreases |events|
  {
    hide Sound;
    hide Step;
    if events != [] {
      StartStep(s, events[0]);
      if events[0].PromiseEvent? {
        StartsDone(Step(s, events[0]), events[1..]);
      } else {
        StartsWithHead(Step(s, events[0]), events[1..]);
      }
    }
  }

  lemma {:induction false} StartsWithPromise(s: State, events: seq<Event>)
    requires Sound(s) && s.phase == Initial && s.promiseSent
    ensures Run(s, events).starts == s.starts + Count(FirstHead(events) < |events|)
    decreases |events|
  {
    hide Sound;
    hide Step;
    if events != [] {
      StartStep(s, events[0]);
      if SetsHead(events[0]) {
        StartsDone(Step(s, events[0]), events[1..]);
      } else {
        StartsWithPromise(Step(s, events[0]), events[1..]);
      }
    }
  }

  lemma {:induction false} StartsDone(s: State, events: seq<Event>)
    requires Sound(s) && s.phase != Initial && s.promiseSent
    ensures Run(s, events).starts == s.starts
    decreases |events|
  {
    hide Sound;
    hide Step;
    if events != [] {
      StartStep(s, events[0]);
      StartsDone(Step(s, events[0]), events[1..]);
    }
  }

  /** A response is never started twice, unless a promise is reported for one that was not pushed and whose
      headers were already set. */
  lemma StartedOnceIff(head: bool, pushed: bool, events: seq<Event>)
    ensures Run(New(head, pushed), events).starts <= 1 <==>
              pushed || !(FirstHead(events) < FirstPromise(events) < |events|)
  {
    StartsClosedForm(head, pushed, events);
  }

  lemma StartedTwice()
    ensures Run(New(false, false), [EndEvent([]), PromiseEvent]).starts == 2
  {
    var events := [EndEvent([]), PromiseEvent];
    StartsClosedForm(false, false, events);
    assert events[1..] == [PromiseEvent];
    assert FirstPromise(events) == 1;
  }

  ghost function ReadTotal(events: seq<Event>): nat {
    if events == [] then 0 else (if events[0].ReadEvent? then events[0].len else 0) + ReadTotal(events[1..])
  }

  ghost predicate AnyRead(events: seq<Event>) {
    events != [] && (events[0].ReadEvent? || AnyRead(events[1..]))
  }

  /** Whatever comes after a body was accepted: the reads deliver its first bytes, as many as were asked for,
      and its end is flagged exactly when a read has asked for the last of them. */
  lemma BodyIsDelivered(s: State, data: seq<Byte>, events: seq<Event>)
    requires Sound(s) && s.phase != BodyStarted
    ensures var r := Run(s, [EndEvent(data)] + events);
            && r.body == Some(data) && r.delivered == data[..Min(ReadTotal(events), |data|)]
            && (r.eof <==> AnyRead(events) && ReadTotal(events) >= |data|)
  {
    var t := End(s, data);
    StepSound(s, EndEvent(data));
    assert ([EndEvent(data)] + events)[1..] == events;
    assert t.delivered == data[..0];
    DeliveredBy(t, data, |data|, events);
  }

  /** Until a body is read to its end, only reads move it on. */
  lemma BodyStep(s: State, e: Event)
    requires Sound(s) && s.generator.Body?
    ensures var left := s.generator.left; var t := Step(s, e);
            && (!e.ReadEvent? ==> t.generator == s.generator)
            && (e.ReadEvent? && left > e.len ==> t.generator == s.generator.(left := left - e.len))
            && (e.ReadEvent? && left <= e.len ==> t.eof && t.delivered == s.generator.data)
  {
    StepSound(s, e);
    if e.ReadEvent? {
      ReadSound(s, e.len);
    }
  }

  lemma {:induction false} DeliveredBy(s: State, data: seq<Byte>, left: nat, events: seq<Event>)
    requires Sound(s) && s.generator == Body(data, left) && left <= |data|
    ensures var r := Run(s, events);
            && r.body == Some(data)
            && r.delivered == data[..|data| - left + Min(ReadTotal(events), left)]
            && (r.eof <==> AnyRead(events) && ReadTotal(events) >= left)
    decreases |events|
  {
    if events != [] {
      hide Step;
      var e := events[0];
      StepSound(s, e);
      BodyStep(s, e);
      var t := Step(s, e);
      if e.ReadEvent? {
        if left <= e.len {
          GoneStays(t, events[1..]);
        } else {
          DeliveredBy(t, data, left - e.len, events[1..]);
          AnyReadHasTotal(events[1..]);
        }
      } else {
        DeliveredBy(t, data, left, events[1..]);
      }
    }
  }

  lemma {:induction false} AnyReadHasTotal(events: seq<Event>)
    ensures ReadTotal(events) > 0 ==> AnyRead(events)
  {
    if events != [] {
      AnyReadHasTotal(events[1..]);
    }
  }

  lemma {:induction false} GoneStays(s: State, events: seq<Event>)
    requires Sound(s) && s.eof
    ensures Run(s, events).eof && Run(s, events).delivered == s.delivered && Run(s, events).body == s.body
    decreases |events|
  {
    if events != [] {
      StepSound(s, events[0]);
      GoneStays(Step(s, events[0]), events[1..]);
    }
  }

  class ServerResponse {
    const head: bool
    const pushed: bool
    var promiseSent: bool
    var phase: Phase
    var status: nat
    var headers: seq<Header>
    var generator: Generator
    var trailers: seq<Header>

    // What the handler and the protocol library have seen.
    ghost var starts: nat
    ghost var body: Option<seq<Byte>>
    ghost var delivered: seq<Byte>
    ghost var eof: bool
    ghost var ended: bool
    ghost var submitted: seq<seq<Header>>

    ghost function View(): State
      reads this
    {
      State(head, pushed, promiseSent, phase, status, headers, generator, trailers,
            starts, body, delivered, eof, ended, submitted)
    }

    constructor (head: bool, pushed: bool)
      ensures View() == New(head, pushed)
    {
      this.head, this.pushed, promiseSent, phase := head, pushed, false, Initial;
      status, headers, generator, trailers := 200, [], Deferred, [];
      starts, body, delivered, eof, ended, submitted := 0, None, [], false, false, [];
    }

    method Start()
      modifies this
      ensures View() == StartResponse(old(View()))
    {
      if !ExpectResponseBody(head, status) {
        phase := BodyStarted;
      }
      starts := starts + 1;
    }

    method SetHead(statusCode: nat, h: seq<Header>)
      modifies this
      ensures View() == WriteHead(old(View()), statusCode, h)
      ensures old(phase) != Initial ==> View() == old(View())
      ensures old(phase) == Initial ==>
                && status == statusCode && headers == h && phase != Initial
                && starts == old(starts) + if pushed && !promiseSent then 0 else 1
    {
      if phase != Initial {
        return;
      }
      status, headers := statusCode, h;
      phase := HeaderDone;
      if pushed && !promiseSent {
        return;
      }
      Start();
    }

    method Finish(data: seq<Byte>)
      modifies this
      ensures View() == End(old(View()), data)
      ensures phase == BodyStarted
      ensures old(phase) == BodyStarted ==> View() == old(View())
      ensures old(phase) != BodyStarted ==> generator == Body(data, |data|) && body == Some(data) && status == old(status)
    {
      if phase == BodyStarted {
        return;
      }
      generator := Body(data, |data|);
      body := Some(data);
      if phase == Initial {
        SetHead(status, []);
      }
      phase := BodyStarted;
    }

    method SubmitTrailer()
      modifies this
      ensures View() == SendTrailer(old(View()))
    {
      if trailers != [] {
        submitted := submitted + [trailers];
        trailers := [];
      }
    }

    method SetTrailer(h: seq<Header>)
      modifies this
      ensures View() == WriteTrailer(old(View()), h)
      ensures old(generator).Gone? ==> trailers == [] && submitted == old(submitted) + if h == [] then [] else [h]
      ensures !old(generator).Gone? ==> trailers == h && submitted == old(submitted)
    {
      trailers := h;
      if generator.Gone? {
        SubmitTrailer();
      }
    }

    method PromiseSent()
      modifies this
      ensures View() == PushPromiseSent(old(View()))
      ensures promiseSent
      ensures starts == old(starts) + if !old(promiseSent) && old(phase) != Initial then 1 else 0
    {
      if promiseSent {
        return;
      }
      promiseSent := true;
      if phase == Initial {
        return;
      }
      Start();
    }

    /** call_read with a buffer of `len` bytes: the bytes put there, and the two flags; a deferred read
        returns no count. */
    method Read(len: nat) returns (bytes: Option<seq<Byte>>, flagEof: bool, flagNoEnd: bool)
      requires LeftFits(View())
      modifies this
      ensures View() == CallRead(old(View()), len)
      ensures flagEof <==> generator.Gone?
      ensures flagNoEnd <==> flagEof && old(trailers) != []
      ensures bytes.None? <==> old(generator).Deferred?
      ensures bytes.Some? ==> delivered == old(delivered) + bytes.value && |bytes.value| <= len
    {
      bytes, flagEof, flagNoEnd := None, false, false;
      match generator {
        case Deferred =>
        case Gone =>
          bytes, flagEof := Some([]), true;
          eof := true;
        case Body(data, left) =>
          var n := Min(len, left);
          bytes := Some(data[|data| - left..|data| - left + n]);
          delivered := delivered + bytes.value;
          if left - n == 0 {
            flagEof := true;
            generator := Gone;
            eof := true;
          } else {
            generator := Body(data, left - n);
          }
      }
      if flagEof {
        if trailers != [] {
          flagNoEnd := true;
          SubmitTrailer();
        } else {
          ended := true;
        }
      }
    }
  }
}
