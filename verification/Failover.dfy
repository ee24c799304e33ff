/** Which host a client connects to next, when there are several.

    The preferred host is tried between any two others.  The others are in two queues, `candidates` and
    `used`.
 */
module Failover {

  import opened Basics

  type Host = string

  /** `delayed` says that the delayed-reconnect timer is running. */
  datatype Hosts = Hosts(
    conn: ConnState, authority: Host, preferred: Host, candidates: seq<Host>, used: seq<Host>, delayed: bool)

  // ---------------------------------------------------------------------------------------
  // Operations, for a client that should reconnect
  // ---------------------------------------------------------------------------------------

  /** connect_to_host. */
  function ConnectTo(s: Hosts, host: Host): Hosts {
    s.(conn := Connecting, authority := host)
  }

  function ReconnectToAltAddr(s: Hosts): Hosts {
    if s.conn == Connected then s
    else if s.authority != s.preferred then
      ConnectTo(s.(used := s.used + [s.authority]), s.preferred)
    else if s.candidates != [] then
      ConnectTo(s.(candidates := s.candidates[1..]), s.candidates[0])
    else s.(delayed := true)
  }

  function ReconnectToUsedHost(s: Hosts): Hosts {
    if s.conn == Connected then s
    else if s.used != [] then ConnectTo(s.(used := s.used[1..]), s.used[0])
    else ConnectTo(s, s.authority)
  }

  /** disconnect stops the connection and all its timers. */
  function Disconnect(s: Hosts): Hosts {
    s.(conn := Idle, delayed := false)
  }

  function OnPreferredHostUp(s: Hosts): Hosts {
    if s.authority != s.preferred && s.conn == Connected then
      ConnectTo(Disconnect(s).(candidates := s.candidates + [s.authority]), s.preferred)
    else s
  }

  datatype Event = ConnectedEvent | ErrorEvent | TimerEvent | PreferredUpEvent

  predicate Enabled(s: Hosts, e: Event) {
    match e
    case ConnectedEvent => s.conn == Connecting
    case ErrorEvent => s.conn != Idle
    case TimerEvent => s.delayed
    case PreferredUpEvent => true
  }

  /** An error disconnects first; the delayed timer fires once. */
  function Step(s: Hosts, e: Event): Hosts
    requires Enabled(s, e)
  {
    match e
    case ConnectedEvent => s.(conn := Connected)
    case ErrorEvent => ReconnectToAltAddr(Disconnect(s))
    case TimerEvent => ReconnectToUsedHost(s.(delayed := false))
    case PreferredUpEvent => OnPreferredHostUp(s)
  }

  // ---------------------------------------------------------------------------------------
  // No host is lost or duplicated
  // ---------------------------------------------------------------------------------------

  /** All hosts but the preferred one. */
  function Others(s: Hosts): multiset<Host> {
    multiset(s.candidates) + multiset(s.used) + (if s.authority != s.preferred then multiset{s.authority} else multiset{})
  }

  /** The preferred host is not among the others; the timer only runs when the client is idle and was
      last refused by the preferred host with no candidate left. */
  ghost predicate Inv(s: Hosts) {
    && s.preferred !in s.candidates && s.preferred !in s.used
    && (s.delayed ==> s.conn == Idle && s.authority == s.preferred && s.candidates == [])
    && (s.conn == Idle ==> s.delayed)
  }

  lemma SplitFirst(q: seq<Host>)
    requires q != []
    ensures multiset(q) == multiset{q[0]} + multiset(q[1..])
  {
    assert q == [q[0]] + q[1..];
  }

  lemma AltConserves(s: Hosts)
    requires Inv(s) && s.conn != Idle
    ensures var t := ReconnectToAltAddr(Disconnect(s)); Inv(t) && Others(t) == Others(s) && t.preferred == s.preferred
  {
    if s.authority != s.preferred {
      assert multiset(s.used + [s.authority]) == multiset(s.used) + multiset{s.authority};
    } else if s.candidates != [] {
      SplitFirst(s.candidates);
      assert s.candidates[0] in s.candidates;
    }
  }

  lemma UsedConserves(s: Hosts)
    requires Inv(s) && s.delayed
    ensures var t := ReconnectToUsedHost(s.(delayed := false)); Inv(t) && Others(t) == Others(s) && t.preferred == s.preferred
  {
    if s.used != [] {
      SplitFirst(s.used);
      assert s.used[0] in s.used;
    }
  }

  lemma UpConserves(s: Hosts)
    requires Inv(s)
    ensures var t := OnPreferredHostUp(s); Inv(t) && Others(t) == Others(s) && t.preferred == s.preferred
  {
    assert multiset(s.candidates + [s.authority]) == multiset(s.candidates) + multiset{s.authority};
  }

  /** Failback: a client that is connected to another host leaves it for its preferred host, and queues it behind
      the candidates; in every other state nothing changes. */
  lemma Failback(s: Hosts)
    ensures var t := OnPreferredHostUp(s);
            if s.conn == Connected && s.authority != s.preferred
            then && t.authority == t.preferred == s.preferred && t.conn == Connecting && !t.delayed
                 && Queue(t) == s.candidates + [s.authority] + s.used && t.used == s.used
            else t == s
  {
  }

  /** A connection that is made stays with its host: the queues do not move, and only an error or a failback ends it. */
  lemma ConnectionMade(s: Hosts, e: Event)
    requires Inv(s) && s.conn == Connecting
    ensures var t := Step(s, ConnectedEvent);
            && t == s.(conn := Connected)
            && (Enabled(t, e) && Step(t, e) != t && e != ConnectedEvent ==>
                  e == ErrorEvent || (e == PreferredUpEvent && s.authority != s.preferred))
  {
  }

  /** Every step, failover or failback, keeps the hosts. */
  lemma StepConserves(s: Hosts, e: Event)
    requires Inv(s) && Enabled(s, e)
    ensures Inv(Step(s, e)) && Others(Step(s, e)) == Others(s) && Step(s, e).preferred == s.preferred
  {
    hide ReconnectToAltAddr;
    hide ReconnectToUsedHost;
    hide OnPreferredHostUp;
    match e
    case ConnectedEvent =>
    case ErrorEvent => AltConserves(s);
    case TimerEvent => UsedConserves(s);
    case PreferredUpEvent => UpConserves(s);
  }

  /** Taking a candidate keeps the hosts if and only if it is not the preferred host again: a host listed
      twice is lost the first time its copy is tried. */
  lemma CandidateConservesIff(s: Hosts)
    requires s.conn == Idle && s.authority == s.preferred && s.candidates != []
    ensures Others(ReconnectToAltAddr(s)) == Others(s) <==> s.candidates[0] != s.preferred
  {
    SplitFirst(s.candidates);
    var rest := multiset(s.candidates[1..]) + multiset(s.used);
    assert Others(s) == rest + multiset{s.candidates[0]};
  }

  /** A host that is listed twice: its copy is gone after it was tried. */
  lemma DuplicateIsLost()
    ensures var s := Hosts(Idle, "a", "a", ["a"], [], false);
            Others(s) == multiset{"a"} && Others(ReconnectToAltAddr(s)) == multiset{}
  {
    assert ["a"] == ["a"] + [];
  }

  predicate ValidRun(s: Hosts, es: seq<Event>)
    decreases |es|
  {
    es == [] || (Enabled(s, es[0]) && ValidRun(Step(s, es[0]), es[1..]))
  }

  function Run(s: Hosts, es: seq<Event>): Hosts
    requires ValidRun(s, es)
    decreases |es|
  {
    if es == [] then s else Run(Step(s, es[0]), es[1..])
  }

  lemma {:induction false} RunConserves(s: Hosts, es: seq<Event>)
    requires Inv(s) && ValidRun(s, es)
    ensures Inv(Run(s, es)) && Others(Run(s, es)) == Others(s) && Run(s, es).preferred == s.preferred
    decreases |es|
  {
    hide Step;
    hide Others;
    if es != [] {
      StepConserves(s, es[0]);
      RunConserves(Step(s, es[0]), es[1..]);
    }
  }

  // ---------------------------------------------------------------------------------------
  // Consecutive failures: one rotating queue
  // ---------------------------------------------------------------------------------------

  /** One failed attempt, and the delayed timer if it was started. */
  function FailOnce(s: Hosts): Hosts {
    var t := ReconnectToAltAddr(Disconnect(s));
    if t.delayed then ReconnectToUsedHost(t.(delayed := false)) else t
  }

  function FailMany(s: Hosts, n: nat): Hosts
    decreases n
  {
    if n == 0 then s else FailMany(FailOnce(s), n - 1)
  }

  /** Candidates first, then used hosts. */
  function Queue(s: Hosts): seq<Host> {
    s.candidates + s.used
  }

  function Rotate(q: seq<Host>): seq<Host>
    requires q != []
  {
    q[1..] + [q[0]]
  }

  /** The client has just tried, or is trying, its preferred host. */
  ghost predicate AtPreferred(s: Hosts) {
    Inv(s) && s.authority == s.preferred && s.conn == Connecting
  }

  /** After the preferred host fails, the head of the queue is tried; after that fails too, the
      preferred host is tried again and the queue has been rotated. */
  lemma TwoFailures(s: Hosts)
    requires AtPreferred(s) && Queue(s) != []
    ensures FailOnce(s).authority == Queue(s)[0] && FailOnce(s).conn == Connecting && Inv(FailOnce(s))
    ensures AtPreferred(FailOnce(FailOnce(s)))
    ensures FailOnce(FailOnce(s)).preferred == s.preferred
    ensures Queue(FailOnce(FailOnce(s))) == Rotate(Queue(s))
  {
    var q := Queue(s);
    assert q[0] in q;
    assert q[0] in s.candidates || q[0] in s.used;
    var t := FailOnce(s);
    if s.candidates != [] {
      assert q[0] == s.candidates[0] && q[1..] == s.candidates[1..] + s.used;
      assert t.candidates + (t.used + [q[0]]) == q[1..] + [q[0]];
    } else {
      assert q == s.used;
      assert t.candidates + (t.used + [q[0]]) == q[1..] + [q[0]];
    }
  }

  function RotateBy(q: seq<Host>, k: nat): seq<Host>
    requires q != []
    ensures |RotateBy(q, k)| == |q|
    decreases k
  {
    if k == 0 then q else RotateBy(Rotate(q), k - 1)
  }

  lemma {:induction false} RotateIndex(q: seq<Host>, k: nat)
    requires q != [] && k < |q|
    ensures RotateBy(q, k) == q[k..] + q[..k]
    decreases k
  {
    if k > 0 {
      RotateBack(q, k - 1);
      RotateIndex(q, k - 1);
      var r := RotateBy(q, k - 1);
      assert Rotate(r) == q[k..] + q[..k];
    }
  }

  lemma {:induction false} RotateBack(q: seq<Host>, k: nat)
    requires q != []
    ensures RotateBy(q, k + 1) == Rotate(RotateBy(q, k))
    decreases k
  {
    if k > 0 {
      RotateBack(Rotate(q), k - 1);
    }
  }

  lemma {:induction false} FailTwiceMany(s: Hosts, k: nat)
    requires AtPreferred(s) && Queue(s) != []
    ensures var t := FailMany(s, 2 * k); AtPreferred(t) && Queue(t) == RotateBy(Queue(s), k) && t.preferred == s.preferred
    decreases k
  {
    hide FailOnce;
    hide AtPreferred;
    hide Queue;
    if k > 0 {
      TwoFailures(s);
      FailTwiceMany(FailOnce(FailOnce(s)), k - 1);
    }
  }

  lemma {:induction false} FailManyThen(s: Hosts, m: nat, n: nat)
    ensures FailMany(s, m + n) == FailMany(FailMany(s, m), n)
    decreases m
  {
    hide FailOnce;
    if m > 0 {
      FailManyThen(FailOnce(s), m - 1, n);
    }
  }

  /** The k-th other host of the queue is tried after exactly 2k + 1 consecutive failures, and the
      preferred host after every even number of them. */
  lemma EveryHostIsTried(s: Hosts, k: nat)
    requires AtPreferred(s) && k < |Queue(s)|
    ensures FailMany(s, 2 * k + 1).authority == Queue(s)[k]
    ensures FailMany(s, 2 * k).authority == s.preferred
  {
    hide FailOnce;
    hide Queue;
    FailTwiceMany(s, k);
    RotateIndex(Queue(s), k);
    var t := FailMany(s, 2 * k);
    TwoFailures(t);
    FailManyThen(s, 2 * k, 1);
    assert FailMany(t, 1) == FailMany(FailOnce(t), 0);
  }

  /** The host that a failback leaves is tried again, when the preferred host and all candidates have failed. */
  lemma LeftHostIsTriedAgain(s: Hosts)
    requires Inv(s) && s.conn == Connected && s.authority != s.preferred
    ensures FailMany(OnPreferredHostUp(s), 2 * |s.candidates| + 1).authority == s.authority
  {
    Failback(s);
    UpConserves(s);
    var t := OnPreferredHostUp(s);
    assert Queue(t)[|s.candidates|] == s.authority;
    EveryHostIsTried(t, |s.candidates|);
  }

  /** From any reachable state with a connection attempt under way, every host is tried within twice as
      many failures as there are other hosts, plus one. */
  lemma TriedWithinBound(s: Hosts, host: Host) returns (n: nat)
    requires Inv(s) && s.conn == Connecting && (host in Others(s) || host == s.preferred)
    ensures n <= 2 * |Others(s)| + 1
    ensures FailMany(s, n).authority == host
  {
    hide FailMany;
    hide FailOnce;
    if host == s.authority {
      n := 0;
      NoFailure(s);
    } else if s.authority == s.preferred {
      n := TriedFromPreferred(s, host);
    } else {
      var t := FailOnce(s);
      BackToPreferred(s);
      OneFailure(s);
      var m := TriedFromPreferred(t, host);
      n := 1 + m;
      FailManyThen(s, 1, m);
    }
  }

  lemma NoFailure(s: Hosts)
    ensures FailMany(s, 0) == s
  {
  }

  lemma OneFailure(s: Hosts)
    ensures FailMany(s, 1) == FailOnce(s)
  {
    assert FailMany(s, 1) == FailMany(FailOnce(s), 0);
  }

  lemma BackToPreferred(s: Hosts)
    requires Inv(s) && s.conn == Connecting && s.authority != s.preferred
    ensures AtPreferred(FailOnce(s)) && Others(FailOnce(s)) == Others(s) && FailOnce(s).preferred == s.preferred
  {
    StepConserves(s, ErrorEvent);
  }

  lemma TriedFromPreferred(s: Hosts, host: Host) returns (n: nat)
    requires AtPreferred(s) && (host in Others(s) || host == s.preferred)
    ensures n <= 2 * |Others(s)|
    ensures FailMany(s, n).authority == host
  {
    if host == s.preferred {
      n := 0;
    } else {
      var q := Queue(s);
      assert multiset(q) == Others(s);
      assert host in q by { assert host in multiset(q); }
      var k :| 0 <= k < |q| && q[k] == host;
      EveryHostIsTried(s, k);
      n := 2 * k + 1;
    }
  }

  // ---------------------------------------------------------------------------------------
  // The initial queues
  // ---------------------------------------------------------------------------------------

  /** init_connection_targert: the hosts are rotated so that clients start at different ones; the rest
      become candidates.  std::shuffle may then put them in any order `shuffled`. */
  method InitTarget(hosts: seq<Host>, myId: nat) returns (authority: Host, candidates: seq<Host>)
    requires hosts != []
    ensures authority == hosts[myId % |hosts|]
    ensures |candidates| == |hosts| - 1
    ensures multiset(candidates) + multiset{authority} == multiset(hosts)
  {
    var start := myId % |hosts|;
    authority := hosts[start];
    candidates := [];
    ghost var rotated := hosts[start..] + hosts[..start];
    var index := start;
    for count := 0 to |hosts| - 1
      invariant index == start + count
      invariant candidates == rotated[1..count + 1]
    {
      index := index + 1;
      RotatedAt(hosts, start, count + 1);
      TakeMore(rotated, count + 1);
      candidates := candidates + [hosts[index % |hosts|]];
    }
    RotatedAll(hosts, start, candidates);
  }

  lemma RotatedAt(hosts: seq<Host>, start: nat, k: nat)
    requires start < |hosts| && k < |hosts|
    ensures (start + k) % |hosts| < |hosts| && hosts[(start + k) % |hosts|] == (hosts[start..] + hosts[..start])[k]
  {
    if start + k < |hosts| {
      assert (start + k) % |hosts| == start + k;
    } else {
      ModOnce(start + k, |hosts|);
    }
  }

  lemma ModOnce(x: nat, n: nat)
    requires n <= x < 2 * n
    ensures x % n == x - n
  {
    assert x == n * 1 + (x - n);
  }

  lemma TakeMore(r: seq<Host>, k: nat)
    requires 1 <= k < |r|
    ensures r[1..k + 1] == r[1..k] + [r[k]]
  {
  }

  lemma RotatedAll(hosts: seq<Host>, start: nat, candidates: seq<Host>)
    requires start < |hosts| && candidates == (hosts[start..] + hosts[..start])[1..|hosts|]
    ensures |candidates| == |hosts| - 1
    ensures multiset(candidates) + multiset{hosts[start]} == multiset(hosts)
  {
    var rotated := hosts[start..] + hosts[..start];
    assert rotated[0] == hosts[start] && rotated[1..] == candidates;
    SplitFirst(rotated);
    SwapHalves(hosts[..start], hosts[start..]);
    assert hosts[..start] + hosts[start..] == hosts;
    assert multiset(rotated) == multiset(hosts);
  }

  lemma SwapHalves(a: seq<Host>, b: seq<Host>)
    ensures multiset(b + a) == multiset(a + b)
  {
    assert multiset(b + a) == multiset(b) + multiset(a);
    assert multiset(a + b) == multiset(a) + multiset(b);
  }

  /** With distinct hosts, whatever the shuffle, the first connection attempt satisfies the invariant, and
      the other hosts are all hosts but the preferred one. */
  lemma InitialState(hosts: seq<Host>, authority: Host, shuffled: seq<Host>)
    requires forall i, j :: 0 <= i < j < |hosts| ==> hosts[i] != hosts[j]
    requires multiset(shuffled) + multiset{authority} == multiset(hosts)
    ensures var s := Hosts(Connecting, authority, authority, shuffled, [], false);
            Inv(s) && AtPreferred(s) && Others(s) == multiset(hosts) - multiset{authority}
  {
    Distinct(hosts, authority);
    assert multiset(hosts)[authority] == multiset(shuffled)[authority] + 1;
    assert authority !in multiset(shuffled);
  }

  lemma {:induction false} Distinct(hosts: seq<Host>, host: Host)
    requires forall i, j :: 0 <= i < j < |hosts| ==> hosts[i] != hosts[j]
    ensures multiset(hosts)[host] <= 1
  {
    if hosts != [] {
      SplitFirst(hosts);
      Distinct(hosts[1..], host);
      if hosts[0] == host {
        assert host !in hosts[1..];
        assert multiset(hosts[1..])[host] == 0;
      }
    }
  }

  // ---------------------------------------------------------------------------------------
  // The object
  // ---------------------------------------------------------------------------------------

  class HostQueue {
    var conn: ConnState
    var authority: Host
    const preferred: Host
    var candidates: seq<Host>
    var used: seq<Host>
    var delayed: bool

    ghost function View(): Hosts
      reads this
    {
      Hosts(conn, authority, preferred, candidates, used, delayed)
    }

    constructor (authority: Host, candidates: seq<Host>)
      ensures View() == Hosts(Connecting, authority, authority, candidates, [], false)
    {
      conn, this.authority, preferred := Connecting, authority, authority;
      this.candidates, used, delayed := candidates, [], false;
    }

    method ConnectToHost(host: Host)
      modifies this
      ensures View() == ConnectTo(old(View()), host)
    {
      authority := host;
      conn := Connecting;
    }

    /** The failover step; the result says whether anything was tried. */
    method ReconnectToAlt() returns (tried: bool)
      modifies this
      ensures View() == ReconnectToAltAddr(old(View()))
      ensures tried <==> old(conn) != Connected
      ensures !tried ==> View() == old(View())
      ensures tried && old(authority) != preferred ==>
                && authority == preferred && conn == Connecting && delayed == old(delayed)
                && candidates == old(candidates) && used == old(used) + [old(authority)]
      ensures tried && old(authority) == preferred && old(candidates) != [] ==>
                && [authority] + candidates == old(candidates) && conn == Connecting && delayed == old(delayed)
                && used == old(used)
      ensures tried && old(authority) == preferred && old(candidates) == [] ==>
                delayed && conn == old(conn) && authority == preferred && candidates == [] && used == old(used)
    {
      if conn == Connected {
        return false;
      }
      if authority != preferred {
        used := used + [authority];
        ConnectToHost(preferred);
      } else if candidates != [] {
        var next := candidates[0];
        candidates := candidates[1..];
        ConnectToHost(next);
      } else {
        delayed := true;
      }
      return true;
    }

    method ReconnectToUsed()
      modifies this
      ensures View() == ReconnectToUsedHost(old(View()))
      ensures candidates == old(candidates) && delayed == old(delayed)
      ensures old(conn) == Connected ==> View() == old(View())
      ensures old(conn) != Connected ==> conn == Connecting
      ensures old(conn) != Connected && old(used) != [] ==> [authority] + used == old(used)
      ensures old(conn) != Connected && old(used) == [] ==> authority == old(authority) && used == []
    {
      if conn == Connected {
        return;
      }
      if used != [] {
        var next := used[0];
        used := used[1..];
        ConnectToHost(next);
      } else {
        ConnectToHost(authority);
      }
    }

    method PreferredHostUp()
      modifies this
      ensures View() == OnPreferredHostUp(old(View()))
      ensures if old(conn) == Connected && old(authority) != preferred
              then && authority == preferred && conn == Connecting && !delayed
                   && candidates == old(candidates) + [old(authority)] && used == old(used)
              else View() == old(View())
    {
      if authority != preferred && conn == Connected {
        conn, delayed := Idle, false;
        candidates := candidates + [authority];
        ConnectToHost(preferred);
      }
    }
  }
}
