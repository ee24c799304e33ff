/** How the mock server finds the service for a request: sorted services, rules tried from the most to the
    least specific, and a memo of rule results kept with the message.
 */
module MatchServices {

  import opened Basics
  import opened MatchRules

  /** Regular expressions and JSON pointers are foreign: they may be any functions. */
  datatype Env = Env(regex: (string, string) -> bool, json: (string, string) -> string)

  datatype Message = Message(headers: seq<(string, string)>, payload: string)

  /** The rules of a service in ascending order, as its std::set keeps them. */
  datatype Service = Service(rules: seq<Rule>, index: nat)

  // ---------------------------------------------------------------------------------------
  // One rule on one message
  // ---------------------------------------------------------------------------------------

  predicate OccursAt(subject: string, text: string, i: nat) {
    i + |text| <= |subject| && subject[i..i + |text|] == text
  }

  predicate MatchText(env: Env, subject: string, r: Rule) {
    match r.matchType
    case EqualsTo => subject == r.text
    case StartsWith => r.text <= subject
    case EndsWith => |subject| >= |r.text| && subject[|subject| - |r.text|..] == r.text
    case Contains => exists i :: 0 <= i <= |subject| && OccursAt(subject, r.text, i)
    case RegexMatch => env.regex(subject, r.text)
  }

  /** What the comparisons mean, with what may stand before and after the text. */
  lemma MatchTextIff(env: Env, subject: string, r: Rule)
    ensures r.matchType == EqualsTo ==> (MatchText(env, subject, r) <==> subject == r.text)
    ensures r.matchType == StartsWith ==> (MatchText(env, subject, r) <==> exists after :: subject == r.text + after)
    ensures r.matchType == EndsWith ==> (MatchText(env, subject, r) <==> exists before :: subject == before + r.text)
    ensures r.matchType == Contains ==>
              (MatchText(env, subject, r) <==> exists before, after :: subject == before + r.text + after)
    ensures r.matchType == RegexMatch ==> (MatchText(env, subject, r) <==> env.regex(subject, r.text))
  {
    if r.matchType == StartsWith && MatchText(env, subject, r) {
      assert subject == r.text + subject[|r.text|..];
    }
    if r.matchType == EndsWith {
      if MatchText(env, subject, r) {
        assert subject == subject[..|subject| - |r.text|] + r.text;
      }
      if before :| subject == before + r.text {
        assert subject[|before|..] == r.text;
      }
    }
    if r.matchType == Contains {
      if MatchText(env, subject, r) {
        var i :| 0 <= i <= |subject| && OccursAt(subject, r.text, i);
        assert subject == subject[..i] + r.text + subject[i + |r.text|..];
      }
      if before, after :| subject == before + r.text + after {
        assert subject[|before|..|before| + |r.text|] == r.text;
        assert OccursAt(subject, r.text, |before|);
      }
    }
  }

  /** The meaning of a rule: one of the values of its header matches, or the payload does. */
  predicate Eval(env: Env, msg: Message, r: Rule) {
    if r.header != [] then
      exists i :: 0 <= i < |msg.headers| && msg.headers[i].0 == r.header && MatchText(env, msg.headers[i].1, r)
    else if r.pointer != [] then MatchText(env, env.json(msg.payload, r.pointer), r)
    else MatchText(env, msg.payload, r)
  }

  /** A request matches when all its rules do. */
  predicate MatchAll(env: Env, msg: Message, rules: seq<Rule>) {
    forall i :: 0 <= i < |rules| ==> Eval(env, msg, rules[i])
  }

  // ---------------------------------------------------------------------------------------
  // Rule numbers
  // ---------------------------------------------------------------------------------------

  /** A std::set of rules: strictly ascending. */
  ghost predicate Ascending(rs: seq<Rule>) {
    forall i, j :: 0 <= i < j < |rs| ==> RuleLess(rs[i], rs[j])
  }

  /** std::set::insert: a rule equivalent to one already there is dropped. */
  function Insert(rs: seq<Rule>, r: Rule): seq<Rule> {
    if rs == [] then [r]
    else if RuleLess(r, rs[0]) then [r] + rs
    else if RuleLess(rs[0], r) then [rs[0]] + Insert(rs[1..], r)
    else rs
  }

  /** There is a rule equivalent to r. */
  ghost predicate Covers(rs: seq<Rule>, r: Rule) {
    exists i :: 0 <= i < |rs| && Equivalent(rs[i], r)
  }

  lemma {:induction false} InsertKeeps(rs: seq<Rule>, r: Rule)
    requires Ascending(rs)
    ensures Ascending(Insert(rs, r)) && Covers(Insert(rs, r), r)
    ensures forall x :: x in Insert(rs, r) ==> x in rs || x == r
    ensures forall x :: x in rs ==> x in Insert(rs, r)
  {
    hide RuleLess;
    RuleOrder();
    var t := Insert(rs, r);
    if rs == [] || RuleLess(r, rs[0]) {
      assert t[0] == r;
      assert forall i :: 0 <= i < |rs| ==> t[i + 1] == rs[i];
      assert forall i :: 0 < i < |t| ==> t[i] == rs[i - 1];
    } else if RuleLess(rs[0], r) {
      var u := Insert(rs[1..], r);
      assert forall i, j :: 0 <= i < j < |rs[1..]| ==> rs[1..][i] == rs[i + 1] && rs[1..][j] == rs[j + 1];
      InsertKeeps(rs[1..], r);
      assert t == [rs[0]] + u;
      InsertTail(rs[0], rs[1..], u, r);
    } else {
      assert Equivalent(rs[0], r);
    }
  }

  lemma InsertTail(x: Rule, tail: seq<Rule>, u: seq<Rule>, r: Rule)
    requires Ascending(u) && Covers(u, r) && RuleLess(x, r)
    requires forall i :: 0 <= i < |tail| ==> RuleLess(x, tail[i])
    requires forall y :: y in u ==> y in tail || y == r
    ensures Ascending([x] + u) && Covers([x] + u, r)
  {
    hide RuleLess;
    var t := [x] + u;
    forall i, j | 0 <= i < j < |t|
      ensures RuleLess(t[i], t[j])
    {
      assert t[j] == u[j - 1] && u[j - 1] in u;
    }
    var i :| 0 <= i < |u| && Equivalent(u[i], r);
    assert t[i + 1] == u[i];
  }

  /** All rules of a list of services, in one set. */
  function InsertAll(rs: seq<Rule>, more: seq<Rule>): seq<Rule>
    decreases |more|
  {
    if more == [] then rs else InsertAll(Insert(rs, more[0]), more[1..])
  }

  function AllRules(services: seq<Service>): seq<Rule> {
    if services == [] then [] else InsertAll(AllRules(services[..|services| - 1]), services[|services| - 1].rules)
  }

  ghost predicate InServices(services: seq<Service>, r: Rule) {
    exists k, i :: 0 <= k < |services| && 0 <= i < |services[k].rules| && services[k].rules[i] == r
  }

  lemma {:induction false} InsertAllKeeps(rs: seq<Rule>, more: seq<Rule>)
    requires Ascending(rs)
    ensures Ascending(InsertAll(rs, more))
    ensures forall x :: x in InsertAll(rs, more) ==> x in rs || x in more
    ensures forall x :: x in rs ==> x in InsertAll(rs, more)
    ensures forall x :: x in more ==> Covers(InsertAll(rs, more), x)
    decreases |more|
  {
    hide RuleLess;
    if more != [] {
      var s := Insert(rs, more[0]);
      InsertKeeps(rs, more[0]);
      InsertAllKeeps(s, more[1..]);
      var t := InsertAll(s, more[1..]);
      forall x | x in more
        ensures Covers(t, x)
      {
        if x == more[0] {
          var i :| 0 <= i < |s| && Equivalent(s[i], x);
          assert s[i] in s;
          var j :| 0 <= j < |t| && t[j] == s[i];
        } else {
          assert x in more[1..];
        }
      }
    }
  }

  lemma {:induction false} AllRulesFacts(services: seq<Service>)
    ensures Ascending(AllRules(services))
    ensures forall x :: x in AllRules(services) ==> InServices(services, x)
    ensures forall x :: InServices(services, x) ==> Covers(AllRules(services), x)
    decreases |services|
  {
    hide RuleLess;
    if services != [] {
      var n := |services| - 1;
      var before, last := services[..n], services[n].rules;
      var t := AllRules(before);
      AllRulesFacts(before);
      InsertAllKeeps(t, last);
      forall x | x in AllRules(services)
        ensures InServices(services, x)
      {
        if x in last {
          var i :| 0 <= i < |last| && last[i] == x;
        } else {
          var k, i :| 0 <= k < |before| && 0 <= i < |before[k].rules| && before[k].rules[i] == x;
          assert services[k].rules[i] == x;
        }
      }
      forall x | InServices(services, x)
        ensures Covers(AllRules(services), x)
      {
        var k, i :| 0 <= k < |services| && 0 <= i < |services[k].rules| && services[k].rules[i] == x;
        if k < n {
          assert before[k].rules[i] == x;
          assert InServices(before, x) && Covers(t, x);
          var j :| 0 <= j < |t| && Equivalent(t[j], x);
          assert t[j] in AllRules(services);
          var m :| 0 <= m < |AllRules(services)| && AllRules(services)[m] == t[j];
        } else {
          assert last[i] == x;
        }
      }
    }
  }

  /** std::distance(begin, find(rule)): the position of the equivalent rule. */
  function UniqueId(all: seq<Rule>, r: Rule): nat {
    if all == [] then 0 else if Equivalent(all[0], r) then 0 else 1 + UniqueId(all[1..], r)
  }

  lemma {:induction false} UniqueIdFacts(all: seq<Rule>, r: Rule)
    requires Covers(all, r)
    ensures UniqueId(all, r) < |all| && Equivalent(all[UniqueId(all, r)], r)
  {
    hide Equivalent;
    if !Equivalent(all[0], r) {
      var i :| 0 <= i < |all| && Equivalent(all[i], r);
      assert all[1..][i - 1] == all[i];
      UniqueIdFacts(all[1..], r);
    }
  }

  /** Two rules share a number if and only if they are equivalent. */
  lemma SameIdIff(all: seq<Rule>, a: Rule, b: Rule)
    requires Ascending(all) && Covers(all, a) && Covers(all, b)
    ensures UniqueId(all, a) == UniqueId(all, b) <==> Equivalent(a, b)
  {
    hide RuleLess;
    UniqueIdFacts(all, a);
    UniqueIdFacts(all, b);
    var i, j := UniqueId(all, a), UniqueId(all, b);
    ThreeRules(a, all[i], b);
    ThreeRules(all[i], a, b);
    ThreeRules(all[i], b, all[j]);
  }

  // ---------------------------------------------------------------------------------------
  // Matching with the memo
  // ---------------------------------------------------------------------------------------

  /** match_result: rule number to result. */
  type Memo = map<nat, bool>

  datatype Answer<T> = Answer(value: T, memo: Memo)

  function MatchMemo(env: Env, all: seq<Rule>, msg: Message, r: Rule, memo: Memo): Answer<bool> {
    var id := UniqueId(all, r);
    if id in memo then Answer(memo[id], memo)
    else
      var matched := Eval(env, msg, r);
      Answer(matched, memo[id := matched])
  }

  /** The rules from the last to the first, until one does not match. */
  function MatchRulesMemo(env: Env, all: seq<Rule>, msg: Message, rules: seq<Rule>, memo: Memo): Answer<bool> {
    if rules == [] then Answer(true, memo)
    else
      var n := |rules| - 1;
      var a := MatchMemo(env, all, msg, rules[n], memo);
      if !a.value then a else MatchRulesMemo(env, all, msg, rules[..n], a.memo)
  }

  /** get_matched_request: the services from the last to the first, until one matches. */
  function FindMemo(env: Env, all: seq<Rule>, msg: Message, services: seq<Service>, memo: Memo): Answer<Option<nat>> {
    if services == [] then Answer(None, memo)
    else
      var n := |services| - 1;
      var a := MatchRulesMemo(env, all, msg, services[n].rules, memo);
      if a.value then Answer(Some(n), a.memo) else FindMemo(env, all, msg, services[..n], a.memo)
  }

  /** Without a memo: the last service all of whose rules match. */
  function Find(env: Env, msg: Message, services: seq<Service>): Option<nat> {
    if services == [] then None
    else if MatchAll(env, msg, services[|services| - 1].rules) then Some(|services| - 1)
    else Find(env, msg, services[..|services| - 1])
  }

  /** Equivalent rules have equal fields. */
  ghost predicate KeysDecide(services: seq<Service>) {
    forall a, b :: InServices(services, a) && InServices(services, b) && Equivalent(a, b) ==> a == b
  }

  /** What is in the memo is true of the rule with that number. */
  ghost predicate Truthful(env: Env, all: seq<Rule>, msg: Message, memo: Memo) {
    forall id :: id in memo ==> id < |all| && memo[id] == Eval(env, msg, all[id])
  }

  /** The rule with the number of r means the same as r. */
  ghost predicate Faithful(env: Env, all: seq<Rule>, msg: Message, r: Rule) {
    var id := UniqueId(all, r);
    id < |all| && Eval(env, msg, all[id]) == Eval(env, msg, r)
  }

  lemma RuleByMemo(env: Env, all: seq<Rule>, msg: Message, r: Rule, memo: Memo)
    requires Truthful(env, all, msg, memo) && Faithful(env, all, msg, r)
    ensures var a := MatchMemo(env, all, msg, r, memo);
            a.value == Eval(env, msg, r) && Truthful(env, all, msg, a.memo)
  {
    hide Eval;
    hide UniqueId;
  }

  lemma {:induction false} RulesByMemo(env: Env, all: seq<Rule>, msg: Message, rules: seq<Rule>, memo: Memo)
    requires Truthful(env, all, msg, memo)
    requires forall i :: 0 <= i < |rules| ==> Faithful(env, all, msg, rules[i])
    ensures var a := MatchRulesMemo(env, all, msg, rules, memo);
            a.value == MatchAll(env, msg, rules) && Truthful(env, all, msg, a.memo)
  {
    hide Eval;
    hide MatchMemo;
    hide Truthful;
    hide Faithful;
    if rules != [] {
      var n := |rules| - 1;
      RuleByMemo(env, all, msg, rules[n], memo);
      var a := MatchMemo(env, all, msg, rules[n], memo);
      if a.value {
        RulesByMemo(env, all, msg, rules[..n], a.memo);
      }
    }
  }

  lemma {:induction false} FindByMemo(env: Env, all: seq<Rule>, msg: Message, services: seq<Service>, memo: Memo)
    requires Truthful(env, all, msg, memo)
    requires forall k, i :: 0 <= k < |services| && 0 <= i < |services[k].rules| ==> Faithful(env, all, msg, services[k].rules[i])
    ensures FindMemo(env, all, msg, services, memo).value == Find(env, msg, services)
  {
    hide MatchRulesMemo;
    hide MatchAll;
    hide Truthful;
    hide Faithful;
    if services != [] {
      var n := |services| - 1;
      RulesByMemo(env, all, msg, services[n].rules, memo);
      var a := MatchRulesMemo(env, all, msg, services[n].rules, memo);
      if !a.value {
        FindByMemo(env, all, msg, services[..n], a.memo);
      }
    }
  }

  /** When equivalent rules have equal fields, matching with the memo finds the same service as matching
      without it, for every message, whatever regular expressions and JSON pointers mean. */
  lemma MemoIsTransparent(env: Env, services: seq<Service>, msg: Message)
    requires KeysDecide(services)
    ensures FindMemo(env, AllRules(services), msg, services, map[]).value == Find(env, msg, services)
  {
    hide Eval;
    hide FindMemo;
    hide Find;
    var all := AllRules(services);
    AllRulesFacts(services);
    forall k, i | 0 <= k < |services| && 0 <= i < |services[k].rules|
      ensures Faithful(env, all, msg, services[k].rules[i])
    {
      var r := services[k].rules[i];
      assert InServices(services, r);
      UniqueIdFacts(all, r);
      var x := all[UniqueId(all, r)];
      assert x in all && InServices(services, x);
      assert x == r;
    }
    FindByMemo(env, all, msg, services, map[]);
  }

  /** The result for a second rule is right if and only if it is not equivalent to the first, or the two
      mean the same for this message. */
  lemma SecondRuleRightIff(env: Env, all: seq<Rule>, msg: Message, a: Rule, b: Rule)
    requires Ascending(all) && Covers(all, a) && Covers(all, b)
    ensures var first := MatchMemo(env, all, msg, a, map[]);
            MatchMemo(env, all, msg, b, first.memo).value == Eval(env, msg, b)
            <==> !Equivalent(a, b) || Eval(env, msg, a) == Eval(env, msg, b)
  {
    hide Eval;
    hide UniqueId;
    hide Equivalent;
    SameIdIff(all, a, b);
  }

  /** Two services whose rules collide: the memo makes the second one match a message it should not. */
  lemma MemoCanMislead(env: Env)
    ensures var a := Rule(EqualsTo, "ab", "", "c");
            var b := Rule(EqualsTo, "a", "", "bc");
            var x := Rule(Contains, "z", "", "q");
            var services := [Service([b], 0), Service([x, a], 1)];
            var msg := Message([("ab", "c")], "");
            && Find(env, msg, services) == None
            && FindMemo(env, AllRules(services), msg, services, map[]).value == Some(0)
  {
    hide AllRules;
    hide UniqueId;
    hide Eval;
    hide Equivalent;
    hide FindMemo;
    hide Find;
    var a, b, x := Rule(EqualsTo, "ab", "", "c"), Rule(EqualsTo, "a", "", "bc"), Rule(Contains, "z", "", "q");
    var services := [Service([b], 0), Service([x, a], 1)];
    var msg := Message([("ab", "c")], "");
    CollidingRules(env, a, b, x, msg);
    assert services[1].rules[0] == x && services[0].rules[0] == b;
    var all := AllRules(services);
    AllRulesFacts(services);
    assert InServices(services, a) by { assert services[1].rules[1] == a; }
    assert InServices(services, b) && InServices(services, x);
    SameIdIff(all, a, b);
    SameIdIff(all, a, x);
    MisleadingSteps(env, all, msg, a, b, x, services);
  }

  lemma MisleadingSteps(env: Env, all: seq<Rule>, msg: Message, a: Rule, b: Rule, x: Rule, services: seq<Service>)
    requires services == [Service([b], 0), Service([x, a], 1)]
    requires UniqueId(all, a) == UniqueId(all, b) != UniqueId(all, x)
    requires Eval(env, msg, a) && !Eval(env, msg, b) && !Eval(env, msg, x)
    ensures Find(env, msg, services) == None
    ensures FindMemo(env, all, msg, services, map[]).value == Some(0)
  {
    hide UniqueId;
    hide Eval;
    assert services[..1] == [Service([b], 0)] && services[..1][..0] == [];
    assert [x, a][..1] == [x] && [x][..0] == [] && [b][..0] == [];
    assert !MatchAll(env, msg, [x, a]) by { assert [x, a][0] == x; }
    assert !MatchAll(env, msg, [b]) by { assert [b][0] == b; }
    assert Find(env, msg, services[..1]) == Find(env, msg, services[..1][..0]) == None;
    var memo := map[UniqueId(all, a) := true];
    var second := MatchRulesMemo(env, all, msg, [x, a], map[]);
    assert MatchRulesMemo(env, all, msg, [x], memo) == Answer(false, memo[UniqueId(all, x) := false]);
    assert second == Answer(false, memo[UniqueId(all, x) := false]);
    assert MatchRulesMemo(env, all, msg, [b], second.memo).value;
  }

  lemma CollidingRules(env: Env, a: Rule, b: Rule, x: Rule, msg: Message)
    requires a == Rule(EqualsTo, "ab", "", "c") && b == Rule(EqualsTo, "a", "", "bc")
    requires x == Rule(Contains, "z", "", "q") && msg == Message([("ab", "c")], "")
    ensures Equivalent(a, b) && !Equivalent(a, x)
    ensures Eval(env, msg, a) && !Eval(env, msg, b) && !Eval(env, msg, x)
  {
    DifferentButEquivalent();
    assert msg.headers[0] == ("ab", "c");
    assert "ab"[0] == 'a' && "z"[0] == 'z' && |"a"| == 1;
  }

  // ---------------------------------------------------------------------------------------
  // The most specific service wins
  // ---------------------------------------------------------------------------------------

  /** A std::map keyed by requests: strictly ascending. */
  ghost predicate Sorted(services: seq<Service>) {
    forall i, j :: 0 <= i < j < |services| ==> RequestLess(services[i].rules, services[j].rules)
  }

  /** std::map::insert. */
  function InsertService(services: seq<Service>, s: Service): seq<Service> {
    if services == [] then [s]
    else if RequestLess(s.rules, services[0].rules) then [s] + services
    else if RequestLess(services[0].rules, s.rules) then [services[0]] + InsertService(services[1..], s)
    else services
  }

  ghost predicate SameRequest(a: seq<Rule>, b: seq<Rule>) {
    !RequestLess(a, b) && !RequestLess(b, a)
  }

  /** std::map::insert keeps the order and all services; the new one is dropped only if an equivalent one is there. */
  lemma {:induction false} InsertServiceKeeps(services: seq<Service>, s: Service)
    requires Sorted(services)
    ensures Sorted(InsertService(services, s))
    ensures forall x :: x in InsertService(services, s) ==> x in services || x == s
    ensures forall x :: x in services ==> x in InsertService(services, s)
    ensures s in InsertService(services, s) || exists x :: x in services && SameRequest(x.rules, s.rules)
  {
    hide RequestLess;
    RequestOrder();
    var t := InsertService(services, s);
    if services == [] {
    } else if RequestLess(s.rules, services[0].rules) {
      assert forall i :: 0 < i < |t| ==> t[i] == services[i - 1];
    } else if RequestLess(services[0].rules, s.rules) {
      var tail := services[1..];
      assert forall i :: 0 <= i < |tail| ==> tail[i] == services[i + 1];
      InsertServiceKeeps(tail, s);
      var u := InsertService(tail, s);
      assert t == [services[0]] + u;
      forall i, j | 0 <= i < j < |t|
        ensures RequestLess(t[i].rules, t[j].rules)
      {
        assert t[j] == u[j - 1] && u[j - 1] in u;
      }
    }
  }

  /** The service found matches, and every other matching service is smaller in the order; in particular
      none has more rules.  None is found only if none matches. */
  lemma {:induction false} MostSpecificWins(env: Env, msg: Message, services: seq<Service>)
    requires Sorted(services)
    ensures match Find(env, msg, services)
            case None => forall j :: 0 <= j < |services| ==> !MatchAll(env, msg, services[j].rules)
            case Some(k) =>
              && k < |services| && MatchAll(env, msg, services[k].rules)
              && forall j :: 0 <= j < |services| && j != k && MatchAll(env, msg, services[j].rules) ==>
                   RequestLess(services[j].rules, services[k].rules) && |services[j].rules| <= |services[k].rules|
    decreases |services|
  {
    hide MatchAll;
    hide RulesLess;
    if services != [] && !MatchAll(env, msg, services[|services| - 1].rules) {
      MostSpecificWins(env, msg, services[..|services| - 1]);
    }
  }

  /** Service `j` is not more specific than service `k`: it has fewer rules, or as many and its greatest rule is not
      of a higher rank.  Rules on headers rank above rules on the payload, and among these equality above the rest. */
  ghost predicate NotMoreSpecific(a: seq<Rule>, b: seq<Rule>) {
    || |a| < |b|
    || (|a| == |b| && (a != [] ==> Rank(a[|a| - 1]) <= Rank(b[|b| - 1])))
  }

  lemma SmallerIsNotMoreSpecific(a: seq<Rule>, b: seq<Rule>)
    requires RequestLess(a, b)
    ensures NotMoreSpecific(a, b)
  {
    if |a| == |b| {
      var n := |a|;
      RulesLessIff(a, b, n);
      var i :| DecidedAt(a, b, n, i) && RuleLess(a[i], b[i]);
      RuleLessIff(a[i], b[i]);
      if i < n - 1 {
        EquivalentIff(a[n - 1], b[n - 1]);
      }
    }
  }

  /** Of all matching services none is more specific than the one found. */
  lemma HighestRuleWins(env: Env, msg: Message, services: seq<Service>)
    requires Sorted(services)
    ensures match Find(env, msg, services)
            case None => true
            case Some(k) =>
              k < |services| && forall j :: 0 <= j < |services| && MatchAll(env, msg, services[j].rules) ==>
                NotMoreSpecific(services[j].rules, services[k].rules)
  {
    hide MatchAll;
    hide RequestLess;
    MostSpecificWins(env, msg, services);
    if Find(env, msg, services).Some? {
      var k := Find(env, msg, services).value;
      forall j | 0 <= j < |services| && MatchAll(env, msg, services[j].rules)
        ensures NotMoreSpecific(services[j].rules, services[k].rules)
      {
        if j != k {
          SmallerIsNotMoreSpecific(services[j].rules, services[k].rules);
        }
      }
    }
  }

  /** In a set of rules the last is of the highest rank. */
  lemma LastIsHighest(rules: seq<Rule>, i: nat)
    requires Ascending(rules) && i < |rules|
    ensures Rank(rules[i]) <= Rank(rules[|rules| - 1])
  {
    if i < |rules| - 1 {
      RuleLessIff(rules[i], rules[|rules| - 1]);
    }
  }

  /** So a service with a rule on a header is found before one that has as many rules, all on the payload. */
  lemma HeaderRulesWin(env: Env, msg: Message, services: seq<Service>, j: nat, i: nat)
    requires Sorted(services) && forall k :: 0 <= k < |services| ==> Ascending(services[k].rules)
    requires j < |services| && MatchAll(env, msg, services[j].rules)
    requires i < |services[j].rules| && services[j].rules[i].header != []
    ensures match Find(env, msg, services)
            case None => false
            case Some(k) =>
              && k < |services| && |services[k].rules| >= |services[j].rules|
              && (|services[k].rules| == |services[j].rules| ==>
                    exists n :: 0 <= n < |services[k].rules| && services[k].rules[n].header != [])
  {
    hide *;
    MostSpecificWins(env, msg, services);
    HighestRuleWins(env, msg, services);
    FoundIsSome(env, msg, services, j);
    var k := Find(env, msg, services).value;
    HeaderAbove(services[j].rules, i, services[k].rules);
  }

  lemma FoundIsSome(env: Env, msg: Message, services: seq<Service>, j: nat)
    requires j < |services| && MatchAll(env, msg, services[j].rules) && Sorted(services)
    ensures Find(env, msg, services).Some?
  {
    hide MatchAll;
    hide Sorted;
    MostSpecificWins(env, msg, services);
    hide Find;
  }

  lemma HeaderAbove(a: seq<Rule>, i: nat, b: seq<Rule>)
    requires Ascending(a) && i < |a| && a[i].header != [] && NotMoreSpecific(a, b)
    ensures |b| >= |a| && (|b| == |a| ==> exists n :: 0 <= n < |b| && b[n].header != [])
  {
    LastIsHighest(a, i);
    if |a| == |b| {
      assert b[|b| - 1].header != [];
    }
  }

  // ---------------------------------------------------------------------------------------
  // The objects
  // ---------------------------------------------------------------------------------------

  /** A request message with the results of the rules tried on it. */
  class RequestMessage {
    const msg: Message
    var matchResult: Memo

    constructor (msg: Message)
      ensures this.msg == msg && matchResult == map[]
    {
      this.msg, matchResult := msg, map[];
    }

    /** The loop over the values of a header. */
    method AnyHeaderMatches(env: Env, r: Rule) returns (matched: bool)
      ensures matched <==> exists i :: 0 <= i < |msg.headers| && msg.headers[i].0 == r.header && MatchText(env, msg.headers[i].1, r)
    {
      hide MatchText;
      matched := false;
      for i := 0 to |msg.headers|
        invariant !matched
        invariant forall k :: 0 <= k < i && msg.headers[k].0 == r.header ==> !MatchText(env, msg.headers[k].1, r)
      {
        if msg.headers[i].0 == r.header {
          matched := MatchText(env, msg.headers[i].1, r);
          if matched {
            break;
          }
        }
      }
    }

    /** Match_Rule::match: looks the result up, or computes and stores it. */
    method MatchRule(env: Env, all: seq<Rule>, r: Rule) returns (matched: bool)
      modifies this
      ensures MatchMemo(env, all, msg, r, old(matchResult)) == Answer(matched, matchResult)
      ensures var id := UniqueId(all, r);
              && matchResult == old(matchResult)[id := matched]
              && (id in old(matchResult) ==> matched == old(matchResult)[id])
              && (id !in old(matchResult) && r.header == [] ==>
                    matched == MatchText(env, if r.pointer == [] then msg.payload else env.json(msg.payload, r.pointer), r))
              && (id !in old(matchResult) && r.header != [] ==>
                    (matched <==> exists i :: 0 <= i < |msg.headers| && msg.headers[i].0 == r.header
                                              && MatchText(env, msg.headers[i].1, r)))
    {
      hide UniqueId;
      hide MatchText;
      var id := UniqueId(all, r);
      if id in matchResult {
        return matchResult[id];
      }
      if r.header != [] {
        matched := AnyHeaderMatches(env, r);
      } else if r.pointer != [] {
        matched := MatchText(env, env.json(msg.payload, r.pointer), r);
      } else {
        matched := MatchText(env, msg.payload, r);
      }
      matchResult := matchResult[id := matched];
    }

    /** H2Server_Request::match: the rules in reverse order. */
    method MatchRequest(env: Env, all: seq<Rule>, rules: seq<Rule>) returns (matched: bool)
      modifies this
      ensures MatchRulesMemo(env, all, msg, rules, old(matchResult)) == Answer(matched, matchResult)
    {
      hide MatchMemo;
      var n := |rules|;
      assert rules[..n] == rules;
      while n > 0
        invariant 0 <= n <= |rules|
        invariant MatchRulesMemo(env, all, msg, rules[..n], matchResult) == MatchRulesMemo(env, all, msg, rules, old(matchResult))
      {
        assert rules[..n][..n - 1] == rules[..n - 1];
        var ok := MatchRule(env, all, rules[n - 1]);
        if !ok {
          return false;
        }
        n := n - 1;
      }
      return true;
    }

    /** H2Server::get_matched_request: the services in reverse order. */
    method GetMatchedRequest(env: Env, services: seq<Service>) returns (found: Option<nat>)
      modifies this
      ensures FindMemo(env, AllRules(services), msg, services, old(matchResult)) == Answer(found, matchResult)
      ensures KeysDecide(services) && old(matchResult) == map[] ==> found == Find(env, msg, services)
      ensures KeysDecide(services) && old(matchResult) == map[] && Sorted(services) ==>
                match found
                case None => forall j :: 0 <= j < |services| ==> !MatchAll(env, msg, services[j].rules)
                case Some(k) =>
                  && k < |services| && MatchAll(env, msg, services[k].rules)
                  && forall j :: 0 <= j < |services| && MatchAll(env, msg, services[j].rules) ==>
                       NotMoreSpecific(services[j].rules, services[k].rules)
    {
      if Sorted(services) {
        MostSpecificWins(env, msg, services);
        HighestRuleWins(env, msg, services);
      }
      hide Sorted;
      hide MatchAll;
      hide NotMoreSpecific;
      hide MatchRulesMemo;
      hide Find;
      hide AllRules;
      hide KeysDecide;
      var all := AllRules(services);
      if KeysDecide(services) {
        MemoIsTransparent(env, services, msg);
      }
      var n := |services|;
      assert services[..n] == services;
      while n > 0
        invariant 0 <= n <= |services|
        invariant FindMemo(env, all, msg, services[..n], matchResult) == FindMemo(env, all, msg, services, old(matchResult))
      {
        assert services[..n][..n - 1] == services[..n - 1];
        var ok := MatchRequest(env, all, services[n - 1].rules);
        if ok {
          return Some(n - 1);
        }
        n := n - 1;
      }
      return None;
    }
  }
}
