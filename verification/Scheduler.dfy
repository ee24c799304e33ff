/** Weighted choices: which scenario a new request runs, and which response a mock service returns. */
module Scheduler {

  import opened Basics
  import opened CommonMultiples
  import opened FiniteSets

  // Buckets: consecutive ranges of draws, one for every index with a width.

  ghost function Start(widths: seq<nat>, i: nat): nat
    requires i <= |widths|
  {
    if i == 0 then 0 else Start(widths, i - 1) + widths[i - 1]
  }

  /** The end of bucket `i`. */
  ghost function End(widths: seq<nat>, i: nat): nat
    requires i < |widths|
  {
    Start(widths, i + 1)
  }

  lemma {:induction false} StartMonotone(widths: seq<nat>, i: nat, j: nat)
    requires i <= j <= |widths|
    ensures Start(widths, i) <= Start(widths, j)
    decreases j
  {
    if i < j {
      StartMonotone(widths, i, j - 1);
    }
  }

  ghost predicate InBucket(widths: seq<nat>, i: nat, draw: nat) {
    i < |widths| && Start(widths, i) <= draw < End(widths, i)
  }

  /** The map built by both schedulers: the end of each bucket that is not empty, and its index. */
  ghost predicate Schedules(m: map<nat, nat>, widths: seq<nat>, n: nat)
    requires n <= |widths|
  {
    && (forall i :: 0 <= i < n && widths[i] > 0 ==>
          End(widths, i) in m && m[End(widths, i)] == i)
    && (forall key :: key in m ==>
          m[key] < n && widths[m[key]] > 0 && key == End(widths, m[key]))
  }

  lemma ScheduleStep(m: map<nat, nat>, widths: seq<nat>, n: nat)
    requires n < |widths| && Schedules(m, widths, n)
    ensures widths[n] == 0 ==> Schedules(m, widths, n + 1)
    ensures widths[n] > 0 ==> Schedules(m[End(widths, n) := n], widths, n + 1)
  {
    forall key | key in m ensures key <= Start(widths, n) {
      StartMonotone(widths, m[key] + 1, n);
    }
    forall i | 0 <= i < n ensures End(widths, i) <= Start(widths, n) {
      StartMonotone(widths, i + 1, n);
    }
  }

  /** Every draw below the total lies in exactly one bucket. */
  lemma {:induction false} BucketExists(widths: seq<nat>, n: nat, draw: nat) returns (i: nat)
    requires n <= |widths| && draw < Start(widths, n)
    ensures i < n && InBucket(widths, i, draw)
    ensures forall j :: 0 <= j < |widths| && InBucket(widths, j, draw) ==> j == i
    decreases n
  {
    if draw < Start(widths, n - 1) {
      i := BucketExists(widths, n - 1, draw);
    } else {
      i := n - 1;
    }
    forall j | 0 <= j < |widths| && InBucket(widths, j, draw) ensures j == i {
      if j < i {
        StartMonotone(widths, j + 1, i);
      } else if i < j {
        StartMonotone(widths, i + 1, j);
      }
    }
  }

  /** The least key above `draw`. */
  method UpperBound(m: map<nat, nat>, draw: nat) returns (key: Option<nat>)
    ensures key.None? ==> forall k :: k in m ==> k <= draw
    ensures key.Some? ==> key.value in m && key.value > draw
    ensures key.Some? ==> forall k :: k in m && k > draw ==> key.value <= k
  {
    key := None;
    var rest := m.Keys;
    while rest != {}
      invariant rest <= m.Keys
      invariant key.None? ==> forall k :: k in m ==> k in rest || k <= draw
      invariant key.Some? ==> key.value in m && key.value > draw
      invariant key.Some? ==> forall k :: k in m && k > draw ==> k in rest || key.value <= k
      decreases |rest|
    {
      var k :| k in rest;
      if k > draw && (key.None? || k < key.value) {
        key := Some(k);
      }
      rest := rest - {k};
    }
  }

  ghost predicate IsUpper(m: map<nat, nat>, draw: nat, key: nat) {
    key in m && key > draw && forall k :: k in m && k > draw ==> key <= k
  }

  /** What a look-up returns: the entry of the least key above the draw, or index 0. */
  ghost predicate Picked(m: map<nat, nat>, draw: nat, index: nat) {
    || (exists key :: IsUpper(m, draw, key) && m[key] == index)
    || (index == 0 && forall k :: k in m ==> k <= draw)
  }

  method Lookup(m: map<nat, nat>, draw: nat) returns (index: nat)
    ensures Picked(m, draw, index)
  {
    var key := UpperBound(m, draw);
    index := 0;
    if key.Some? {
      index := m[key.value];
      assert IsUpper(m, draw, key.value);
    }
  }

  /** A look-up in a map of buckets finds the bucket that the draw lies in. */
  lemma PickedIsBucket(m: map<nat, nat>, widths: seq<nat>, draw: nat, index: nat)
    requires Schedules(m, widths, |widths|) && draw < Start(widths, |widths|) && Picked(m, draw, index)
    ensures InBucket(widths, index, draw) && widths[index] > 0
  {
    var i := BucketExists(widths, |widths|, draw);
    assert End(widths, i) in m;
    var key :| IsUpper(m, draw, key) && m[key] == index;
    if i < index {
      StartMonotone(widths, i + 1, index);
    } else if index < i {
      StartMonotone(widths, index + 1, i);
    }
  }

  /** How many of the first `n` draws lie in bucket `i`. */
  ghost function Hits(widths: seq<nat>, i: nat, n: nat): nat {
    if n == 0 then 0 else Hits(widths, i, n - 1) + (if InBucket(widths, i, n - 1) then 1 else 0)
  }

  /** As many draws as a bucket is wide lead to it. */
  lemma BucketSize(widths: seq<nat>, i: nat)
    requires i < |widths|
    ensures Hits(widths, i, Start(widths, |widths|)) == widths[i]
  {
    StartMonotone(widths, i + 1, |widths|);
    HitsBelow(widths, i, Start(widths, |widths|));
  }

  lemma {:induction false} HitsBelow(widths: seq<nat>, i: nat, n: nat)
    requires i < |widths|
    ensures Hits(widths, i, n) == if n <= Start(widths, i) then 0
                                  else if n <= End(widths, i) then n - Start(widths, i)
                                  else widths[i]
    decreases n
  {
    if n > 0 {
      HitsBelow(widths, i, n - 1);
    }
  }

  // Draws are of type int.

  const INT_RANGE := 0x1_0000_0000
  const INT_LIMIT := 0x8000_0000

  /** The conversion of an unsigned number to a 32-bit int. */
  function AsInt(x: nat): int {
    var r := x % INT_RANGE;
    if r < INT_LIMIT then r else r - INT_RANGE
  }

  /** The number of possible draws: from 0 to the last weight, as an int; none if that is negative. */
  function DrawCount(total: nat): nat {
    if total == 0 then 0 else
    var last := AsInt(total - 1);
    if last < 0 then 0 else last + 1
  }

  lemma DrawCountIff(total: nat)
    ensures DrawCount(total) <= INT_LIMIT && DrawCount(total) <= total
    ensures DrawCount(total) == total <==> total <= INT_LIMIT
  {
    if 0 < total <= INT_LIMIT {
      assert (total - 1) % INT_RANGE == total - 1;
    } else if total > 0 {
      assert (total - 1) % INT_RANGE <= total - 1;
    }
  }

  /** Every bucket is drawn as often as it is wide if and only if the total is at most 2^31. */
  lemma DrawnAsWideIff(widths: seq<nat>)
    ensures (forall i :: 0 <= i < |widths| ==> Hits(widths, i, DrawCount(Start(widths, |widths|))) == widths[i])
            <==> Start(widths, |widths|) <= INT_LIMIT
  {
    var total := Start(widths, |widths|);
    var n := DrawCount(total);
    DrawCountIff(total);
    if total <= INT_LIMIT {
      forall i | 0 <= i < |widths|
        ensures Hits(widths, i, n) == widths[i]
      {
        BucketSize(widths, i);
      }
    } else {
      var i := BucketExists(widths, |widths|, n);
      HitsBelow(widths, i, n);
      assert Hits(widths, i, n) != widths[i];
    }
  }

  /** Weights 4294967295 and 2: the only draw is 0, and the second is never drawn. */
  lemma NeverDrawn()
    ensures var widths := [4294967295, 2];
            DrawCount(Start(widths, 2)) == 1 && Hits(widths, 1, DrawCount(Start(widths, 2))) == 0
  {
    var widths := [4294967295, 2];
    assert Start(widths, 1) == 4294967295;
    assert Start(widths, 2) == 4294967297;
    assert 4294967296 % INT_RANGE == 0;
    HitsBelow(widths, 1, 1);
  }

  // The choice of a scenario.

  datatype Scenario = Scenario(weight: nat, requests: nat)

  ghost predicate AllHaveRequests(scenarios: seq<Scenario>) {
    forall i :: 0 <= i < |scenarios| ==> scenarios[i].requests > 0
  }

  ghost function Width(s: Scenario, multiple: nat): nat
    requires s.requests > 0
  {
    s.weight * multiple / s.requests
  }

  ghost function Widths(scenarios: seq<Scenario>, multiple: nat): (widths: seq<nat>)
    requires AllHaveRequests(scenarios)
    ensures |widths| == |scenarios|
  {
    seq(|scenarios|, i requires 0 <= i < |scenarios| => Width(scenarios[i], multiple))
  }

  ghost predicate MultipleOfAll(scenarios: seq<Scenario>, multiple: nat)
    requires AllHaveRequests(scenarios)
  {
    multiple > 0 && forall i :: 0 <= i < |scenarios| ==> Divides(scenarios[i].requests, multiple)
  }

  /** The division is exact, and a scenario with a weight has a bucket. */
  lemma WidthIsExact(s: Scenario, multiple: nat)
    requires s.requests > 0 && multiple > 0 && Divides(s.requests, multiple)
    ensures Width(s, multiple) * s.requests == s.weight * multiple
    ensures Width(s, multiple) > 0 <==> s.weight > 0
  {
    var k := multiple / s.requests;
    assert multiple == s.requests * k;
    assert s.weight * multiple == (s.weight * k) * s.requests;
    ModUnique(s.weight * multiple, s.requests, s.weight * k, 0);
    assert k > 0;
    assert s.weight > 0 ==> s.weight * k > 0;
  }

  lemma WidthPositive(s: Scenario, multiple: nat)
    requires s.requests > 0 && multiple > 0 && Divides(s.requests, multiple)
    ensures Width(s, multiple) > 0 <==> s.weight > 0
  {
    WidthIsExact(s, multiple);
  }

  /** The map and the running sum after `n` scenarios, in 64-bit arithmetic. */
  datatype Table = Table(m: map<nat, nat>, sum: nat)

  function Build(scenarios: seq<Scenario>, multiple: nat, n: nat): Table
    requires n <= |scenarios| && forall i :: 0 <= i < |scenarios| ==> scenarios[i].requests > 0
  {
    if n == 0 then Table(map[], 0) else
    var t, s := Build(scenarios, multiple, n - 1), scenarios[n - 1];
    if s.weight == 0 then t else
    var sum := Add64(t.sum, Width64(s, multiple));
    Table(t.m[sum := n - 1], sum)
  }

  function Width64(s: Scenario, multiple: nat): nat
    requires s.requests > 0
  {
    s.weight * multiple % WORD_LIMIT / s.requests
  }

  function Add64(a: nat, b: nat): (r: nat)
    ensures r < WORD_LIMIT && r <= a + b && (a + b < WORD_LIMIT ==> r == a + b)
  {
    (a + b) % WORD_LIMIT
  }

  /** The product of weight and multiple reaches 2^64. */
  ghost predicate Overflows(s: Scenario, multiple: nat) {
    s.weight * multiple >= WORD_LIMIT
  }

  /** No product and no sum of the schedule reaches 2^64. */
  ghost predicate NoWrap(scenarios: seq<Scenario>, multiple: nat)
    requires AllHaveRequests(scenarios)
  {
    && (forall i :: 0 <= i < |scenarios| ==> !Overflows(scenarios[i], multiple))
    && Start(Widths(scenarios, multiple), |scenarios|) < WORD_LIMIT
  }

  /** Then the map has the ends of all buckets, and the last sum is that of all widths. */
  lemma {:induction false} BuildSchedules(scenarios: seq<Scenario>, multiple: nat, n: nat)
    requires AllHaveRequests(scenarios) && MultipleOfAll(scenarios, multiple) && NoWrap(scenarios, multiple)
    requires n <= |scenarios|
    ensures var widths := Widths(scenarios, multiple);
            Schedules(Build(scenarios, multiple, n).m, widths, n)
            && Build(scenarios, multiple, n).sum == Start(widths, n)
    decreases n
  {
    if n == 0 {
      assert Schedules(map[], Widths(scenarios, multiple), 0);
    } else {
      BuildSchedules(scenarios, multiple, n - 1);
      hide *;
      FactsAt(scenarios, multiple, n - 1);
      BuildUnfold(scenarios, multiple, n);
      BucketAdded(Build(scenarios, multiple, n - 1), Build(scenarios, multiple, n), scenarios[n - 1].weight,
                  Width64(scenarios[n - 1], multiple), Widths(scenarios, multiple), n);
    }
  }

  lemma FactsAt(scenarios: seq<Scenario>, multiple: nat, i: nat)
    requires AllHaveRequests(scenarios) && MultipleOfAll(scenarios, multiple) && NoWrap(scenarios, multiple)
    requires i < |scenarios|
    ensures var widths := Widths(scenarios, multiple);
            && |widths| == |scenarios| && widths[i] == Width64(scenarios[i], multiple)
            && (widths[i] > 0 <==> scenarios[i].weight > 0) && Start(widths, i + 1) < WORD_LIMIT
  {
    var widths := Widths(scenarios, multiple);
    WidthPositive(scenarios[i], multiple);
    Width64Facts(scenarios[i], multiple);
    StartMonotone(widths, i + 1, |widths|);
  }

  lemma BucketAdded(t: Table, u: Table, weight: nat, w: nat, widths: seq<nat>, n: nat)
    requires 0 < n <= |widths| && widths[n - 1] == w && (w > 0 <==> weight > 0)
    requires Schedules(t.m, widths, n - 1) && t.sum == Start(widths, n - 1)
    requires weight == 0 ==> u == t
    requires weight > 0 ==> u == Table(t.m[t.sum + w := n - 1], t.sum + w)
    ensures Schedules(u.m, widths, n) && u.sum == Start(widths, n)
  {
    ScheduleStep(t.m, widths, n - 1);
  }

  lemma BuildUnfold(scenarios: seq<Scenario>, multiple: nat, n: nat)
    requires 0 < n <= |scenarios| && forall i :: 0 <= i < |scenarios| ==> scenarios[i].requests > 0
    ensures var t, s := Build(scenarios, multiple, n - 1), scenarios[n - 1];
            var sum := t.sum + Width64(s, multiple);
            && (s.weight == 0 ==> Build(scenarios, multiple, n) == t)
            && (s.weight > 0 && sum < WORD_LIMIT ==> Build(scenarios, multiple, n) == Table(t.m[sum := n - 1], sum))
  {
    hide Width64;
    hide Add64;
  }

  lemma Width64Facts(s: Scenario, multiple: nat)
    requires 0 < s.requests
    ensures !Overflows(s, multiple) ==> Width64(s, multiple) == Width(s, multiple)
    ensures s.requests < WORD_LIMIT ==> Width64(s, multiple) <= Width(s, multiple)
    ensures s.requests < WORD_LIMIT && Overflows(s, multiple) ==> Width64(s, multiple) < Width(s, multiple)
    ensures s.weight == 0 ==> Width(s, multiple) == 0 && !Overflows(s, multiple)
  {
    if s.requests < WORD_LIMIT {
      WrappedIsSmaller(s.weight * multiple, s.requests);
    }
    if !Overflows(s, multiple) {
      Small(s.weight * multiple);
    }
    assert s.weight == 0 ==> s.weight * multiple == 0;
  }

  lemma WrappedIsSmaller(x: nat, n: nat)
    requires 0 < n < WORD_LIMIT
    ensures x % WORD_LIMIT / n <= x / n
    ensures x >= WORD_LIMIT ==> x % WORD_LIMIT / n < x / n
  {
    var y := x % WORD_LIMIT;
    assert y <= x && (x >= WORD_LIMIT ==> y + WORD_LIMIT <= x);
    DivMonotone(y, x, n);
    if x >= WORD_LIMIT {
      assert y + n <= x;
      DivMonotone(y + n, x, n);
      assert (y + n) / n == y / n + 1 by { ModUnique(y + n, n, y / n + 1, y % n); }
    }
  }

  lemma DivMonotone(a: nat, b: nat, n: nat)
    requires a <= b && n > 0
    ensures a / n <= b / n
  {
    var qa, qb := a / n, b / n;
    assert a == qa * n + a % n && b == qb * n + b % n;
    assert (qa - qb) * n == qa * n - qb * n;
    NotPositive(qa - qb, n);
  }

  lemma NotPositive(d: int, n: nat)
    requires n > 0 && d * n < n
    ensures d <= 0
  {
    assert d >= 1 ==> d * n >= n;
  }

  /** What the draws are taken from: schedule_map.rbegin()->first. */
  function LargestKey(m: map<nat, nat>): (key: nat)
    requires m != map[]
    ensures IsGreatest(key, m.Keys)
  {
    NotEmpty(m);
    Greatest(m.Keys)
  }

  lemma NotEmpty(m: map<nat, nat>)
    requires m != map[]
    ensures m.Keys != {}
  {
    assert m.Keys == {} ==> m == map[];
  }

  /** In a map of buckets this is the sum of all widths. */
  lemma LargestKeyOfBuckets(m: map<nat, nat>, widths: seq<nat>)
    requires Schedules(m, widths, |widths|) && m != map[]
    ensures LargestKey(m) == Start(widths, |widths|)
  {
    var key, total := LargestKey(m), Start(widths, |widths|);
    StartMonotone(widths, m[key] + 1, |widths|);
    var i := BucketExists(widths, |widths|, total - 1);
    StartMonotone(widths, i + 1, |widths|);
    assert End(widths, i) in m;
  }

  ghost predicate SomeWeight(scenarios: seq<Scenario>) {
    exists i :: 0 <= i < |scenarios| && scenarios[i].weight > 0
  }

  /** The entries of the map, also after a sum wrapped: scenarios with a weight. */
  lemma {:induction false} BuildEntries(scenarios: seq<Scenario>, multiple: nat, n: nat)
    requires AllHaveRequests(scenarios) && n <= |scenarios|
    ensures var m := Build(scenarios, multiple, n).m;
            && (forall key :: key in m ==> m[key] < n && scenarios[m[key]].weight > 0)
            && (m == map[] <==> forall i :: 0 <= i < n ==> scenarios[i].weight == 0)
    decreases n
  {
    hide Width64;
    hide Add64;
    if n > 0 {
      BuildEntries(scenarios, multiple, n - 1);
      var t, m := Build(scenarios, multiple, n - 1), Build(scenarios, multiple, n).m;
      var sum := Add64(t.sum, Width64(scenarios[n - 1], multiple));
      assert scenarios[n - 1].weight > 0 ==> sum in m;
    }
  }

  ghost predicate SomeOverflow(scenarios: seq<Scenario>, multiple: nat, n: nat)
    requires n <= |scenarios|
  {
    exists i :: 0 <= i < n && Overflows(scenarios[i], multiple)
  }

  ghost predicate AtMost(t: Table, bound: int) {
    t.sum <= bound && forall key :: key in t.m ==> key <= bound
  }

  /** A wrapped product makes its bucket smaller, so the largest key is the sum of all widths if and only if
      nothing wraps. */
  lemma TotalIsRightIff(scenarios: seq<Scenario>, multiple: nat)
    requires AllHaveRequests(scenarios) && MultipleOfAll(scenarios, multiple) && SomeWeight(scenarios)
    requires forall i :: 0 <= i < |scenarios| ==> scenarios[i].requests < WORD_LIMIT
    ensures Build(scenarios, multiple, |scenarios|).m != map[]
    ensures LargestKey(Build(scenarios, multiple, |scenarios|).m) == Start(Widths(scenarios, multiple), |scenarios|)
            <==> NoWrap(scenarios, multiple)
  {
    hide Build;
    hide Widths;
    hide Overflows;
    hide Start;
    hide MultipleOfAll;
    BuildEntries(scenarios, multiple, |scenarios|);
    var m := Build(scenarios, multiple, |scenarios|).m;
    if NoWrap(scenarios, multiple) {
      hide NoWrap;
      BuildSchedules(scenarios, multiple, |scenarios|);
      hide Schedules;
      LargestKeyOfBuckets(m, Widths(scenarios, multiple));
    } else {
      KeysTooSmall(scenarios, multiple, |scenarios|);
      assert LargestKey(m) in m;
    }
  }

  /** No key is above the sum of the widths, and after an overflow every key is below it. */
  lemma {:induction false} KeysTooSmall(scenarios: seq<Scenario>, multiple: nat, n: nat)
    requires AllHaveRequests(scenarios) && n <= |scenarios|
    requires forall i :: 0 <= i < |scenarios| ==> scenarios[i].requests < WORD_LIMIT
    ensures var t, total := Build(scenarios, multiple, n), Start(Widths(scenarios, multiple), n);
            && AtMost(t, total) && AtMost(t, WORD_LIMIT - 1)
            && (SomeOverflow(scenarios, multiple, n) ==> AtMost(t, total - 1))
    decreases n
  {
    if n > 0 {
      KeysTooSmall(scenarios, multiple, n - 1);
      var s, widths := scenarios[n - 1], Widths(scenarios, multiple);
      assert widths[n - 1] == Width(s, multiple);
      Width64Facts(s, multiple);
      var t, u := Build(scenarios, multiple, n - 1), Build(scenarios, multiple, n);
      var before, after := Start(widths, n - 1), Start(widths, n);
      assert after == before + Width(s, multiple);
      var w := Width64(s, multiple);
      assert u == if s.weight == 0 then t else Table(t.m[Add64(t.sum, w) := n - 1], Add64(t.sum, w));
      hide *;
      AtMostStep(t, u, s.weight, w, n - 1, before, after);
      AtMostStep(t, u, s.weight, w, n - 1, WORD_LIMIT - 1, WORD_LIMIT - 1);
      if SomeOverflow(scenarios, multiple, n) {
        OverflowStep(scenarios, multiple, n);
        AtMostStep(t, u, s.weight, w, n - 1, if SomeOverflow(scenarios, multiple, n - 1) then before - 1 else before, after - 1);
      }
    }
  }

  lemma OverflowStep(scenarios: seq<Scenario>, multiple: nat, n: nat)
    requires 0 < n <= |scenarios|
    ensures SomeOverflow(scenarios, multiple, n)
            <==> SomeOverflow(scenarios, multiple, n - 1) || Overflows(scenarios[n - 1], multiple)
  {
    hide Overflows;
  }

  lemma AtMostStep(t: Table, u: Table, weight: nat, w: nat, i: nat, before: int, after: int)
    requires AtMost(t, before) && before <= after
    requires u == if weight == 0 then t else Table(t.m[Add64(t.sum, w) := i], Add64(t.sum, w))
    requires before + w <= after || WORD_LIMIT - 1 <= after
    ensures AtMost(u, after)
  {
    hide Add64;
  }

  /** Two buckets of 2^63: the running sum ends at 0, and the largest key is 2^63. */
  lemma SumIsNotLargestKey()
    ensures var scenarios := [Scenario(0x8000_0000, 1), Scenario(0x8000_0000, 1), Scenario(0, 0x1_0000_0000)];
            var t := Build(scenarios, 0x1_0000_0000, 3);
            && MultipleOfAll(scenarios, 0x1_0000_0000)
            && t.m != map[] && t.sum == 0 && LargestKey(t.m) == 0x8000_0000_0000_0000
  {
    var s, multiple, half := Scenario(0x8000_0000, 1), 0x1_0000_0000, 0x8000_0000_0000_0000;
    var scenarios := [s, s, Scenario(0, multiple)];
    assert s.weight * multiple == half && Width64(s, multiple) == half;
    assert Add64(0, half) == half && Add64(half, half) == 0;
    hide Width64;
    hide Add64;
    assert Build(scenarios, multiple, 0) == Table(map[], 0);
    var t := Build(scenarios, multiple, 1);
    assert t.sum == half && t.m == map[half := 0];
    var u := Build(scenarios, multiple, 2);
    assert u.sum == 0 && u.m == map[half := 0, 0 := 1];
    assert Build(scenarios, multiple, 3) == u;
    assert half in u.m && LargestKey(u.m) in u.m;
  }

  /** init_schedule_map: no map if all weights are zero. */
  method InitScheduleMap(scenarios: seq<Scenario>, multiple: nat) returns (r: Option<map<nat, nat>>)
    requires AllHaveRequests(scenarios)
    ensures r.None? <==> !SomeWeight(scenarios)
    ensures r.Some? ==> r.value != map[] && r.value == Build(scenarios, multiple, |scenarios|).m
    ensures r.Some? && MultipleOfAll(scenarios, multiple) && NoWrap(scenarios, multiple) ==>
              && Schedules(r.value, Widths(scenarios, multiple), |scenarios|)
              && LargestKey(r.value) == Start(Widths(scenarios, multiple), |scenarios|)
  {
    hide Schedules;
    hide NoWrap;
    hide Add64;
    hide Width64;
    hide MultipleOfAll;
    hide LargestKey;
    var m: map<nat, nat> := map[];
    var sum := 0;
    for i := 0 to |scenarios|
      invariant Table(m, sum) == Build(scenarios, multiple, i)
    {
      var s := scenarios[i];
      if s.weight > 0 {
        sum := Add64(sum, Width64(s, multiple));
        m := m[sum := i];
      }
    }
    BuildEntries(scenarios, multiple, |scenarios|);
    r := if m == map[] then None else Some(m);
    if r.Some? && MultipleOfAll(scenarios, multiple) && NoWrap(scenarios, multiple) {
      BuildSchedules(scenarios, multiple, |scenarios|);
      LargestKeyOfBuckets(m, Widths(scenarios, multiple));
    }
  }

  /** A draw below the largest key picks one scenario, and one with a weight, also after a sum wrapped. */
  lemma PickHasWeight(scenarios: seq<Scenario>, multiple: nat, draw: nat, index: nat)
    requires AllHaveRequests(scenarios) && Build(scenarios, multiple, |scenarios|).m != map[]
    requires draw < LargestKey(Build(scenarios, multiple, |scenarios|).m)
    requires Picked(Build(scenarios, multiple, |scenarios|).m, draw, index)
    ensures index < |scenarios| && scenarios[index].weight > 0
    ensures forall other :: Picked(Build(scenarios, multiple, |scenarios|).m, draw, other) ==> other == index
  {
    hide Build;
    var m := Build(scenarios, multiple, |scenarios|).m;
    BuildEntries(scenarios, multiple, |scenarios|);
    assert LargestKey(m) in m;
    var key :| IsUpper(m, draw, key) && m[key] == index;
    forall other | Picked(m, draw, other)
      ensures other == index
    {
      var k :| IsUpper(m, draw, k) && m[k] == other;
      assert k == key;
    }
  }

  /** get_index_of_next_scenario_to_run: the look-up of the draw in the map.  A draw below the largest key gives
      a scenario with a weight; without wrap-around, the one in whose bucket the draw lies.  None when no scenario
      has a weight; with at most one scenario nothing is drawn. */
  method NextScenario(scenarios: seq<Scenario>, multiple: nat, draw: nat) returns (index: Option<nat>)
    requires AllHaveRequests(scenarios)
    ensures |scenarios| <= 1 ==> index == Some(0)
    ensures |scenarios| > 1 ==> (index.None? <==> !SomeWeight(scenarios))
    ensures |scenarios| > 1 && index.Some? ==>
              var m := Build(scenarios, multiple, |scenarios|).m;
              && m != map[] && Picked(m, draw, index.value)
              && (draw < LargestKey(m) ==> index.value < |scenarios| && scenarios[index.value].weight > 0)
    ensures |scenarios| > 1 && index.Some? && MultipleOfAll(scenarios, multiple) && NoWrap(scenarios, multiple)
            && draw < LargestKey(Build(scenarios, multiple, |scenarios|).m) ==>
              InBucket(Widths(scenarios, multiple), index.value, draw)
  {
    hide Schedules;
    hide NoWrap;
    hide Build;
    hide LargestKey;
    if |scenarios| <= 1 {
      return Some(0);
    }
    var m := InitScheduleMap(scenarios, multiple);
    if m.None? {
      return None;
    }
    var i := Lookup(m.value, draw);
    index := Some(i);
    hide Picked;
    if draw < LargestKey(m.value) {
      PickHasWeight(scenarios, multiple, draw, i);
      if MultipleOfAll(scenarios, multiple) && NoWrap(scenarios, multiple) {
        PickedIsBucket(m.value, Widths(scenarios, multiple), draw, i);
      }
    }
  }

  /** The common multiple of the request counts is what the schedule needs; so is the number that the 64-bit
      product leaves, as long as the multiple is below 2^64. */
  lemma CommonMultipleServes(scenarios: seq<Scenario>, sizes: seq<nat>)
    requires AllHaveRequests(scenarios) && |sizes| == |scenarios|
    requires forall i :: 0 <= i < |sizes| ==> sizes[i] == scenarios[i].requests
    ensures Positive(ToSet(sizes)) && MultipleOfAll(scenarios, CommonMultiple(ToSet(sizes)))
    ensures CommonMultiple(ToSet(sizes)) < WORD_LIMIT ==>
              MultipleOfAll(scenarios, CommonMultiple(ToSet(sizes)) % WORD_LIMIT)
  {
    var values := ToSet(sizes);
    CommonMultipleDivisible(values, 0);
    forall i | 0 <= i < |scenarios| ensures Divides(scenarios[i].requests, CommonMultiple(values)) {
      assert sizes[i] in values;
      CommonMultipleDivisible(values, sizes[i]);
    }
    if CommonMultiple(values) < WORD_LIMIT {
      Small(CommonMultiple(values));
    }
  }

  /** Past 2^64 it is not: for 4294967296 and 4294967297 requests the product leaves 4294967296. */
  lemma MultipleCanWrap()
    ensures var values := {4294967296, 4294967297};
            && Positive(values) && CommonMultiple(values) % WORD_LIMIT == 4294967296
            && !Divides(4294967297, CommonMultiple(values) % WORD_LIMIT)
  {
    var values := {4294967296, 4294967297};
    assert !Divides(4294967296, 4294967297) && !Divides(4294967297, 4294967296);
    assert Kept(values) == values;
    ProductOfTwo(4294967296, 4294967297);
  }

  // The choice of a response.

  /** H2Server_Response_Group: the distribution map over the weights of the responses. */
  method InitDistributionMap(weights: seq<nat>) returns (m: map<nat, nat>, total: nat)
    ensures Schedules(m, weights, |weights|)
    ensures total == if m == map[] then 1 else Start(weights, |weights|)
    ensures m == map[] <==> Start(weights, |weights|) == 0
  {
    m := map[];
    var sum := 0;
    assert Schedules(m, weights, 0);
    hide Schedules;
    for i := 0 to |weights|
      invariant Schedules(m, weights, i) && sum == Start(weights, i)
      invariant m == map[] <==> sum == 0
    {
      ScheduleStep(m, weights, i);
      if weights[i] > 0 {
        sum := sum + weights[i];
        m := m[sum := i];
        assert sum in m;
      }
    }
    total := if m == map[] then 1 else sum;
  }

  /** select_response: the response in whose bucket the draw lies; the first response if no response has a
      weight, and without a draw the only one that has. */
  method SelectResponse(m: map<nat, nat>, ghost weights: seq<nat>, draw: nat) returns (index: nat)
    requires Schedules(m, weights, |weights|)
    requires m != map[] ==> draw < Start(weights, |weights|)
    ensures m == map[] ==> index == 0
    ensures m != map[] ==> Picked(m, draw, index) && InBucket(weights, index, draw) && weights[index] > 0
  {
    index := 0;
    if m != map[] {
      NotEmpty(m);
      var key := Least(m.Keys);
      index := m[key];
      if |m| > 1 {
        index := Lookup(m, draw);
        PickedIsBucket(m, weights, draw, index);
      } else {
        OnlyBucket(m, weights, key, draw);
      }
    }
  }

  lemma OnlyBucket(m: map<nat, nat>, weights: seq<nat>, key: nat, draw: nat)
    requires Schedules(m, weights, |weights|) && key in m && |m| <= 1
    requires draw < Start(weights, |weights|)
    ensures InBucket(weights, m[key], draw) && Picked(m, draw, m[key])
  {
    var i := BucketExists(weights, |weights|, draw);
    assert End(weights, i) in m.Keys;
    assert |m.Keys| <= 1 && m.Keys - {key} == {} by {
      assert |m.Keys - {key}| == |m.Keys| - 1;
    }
    assert m.Keys == {key};
    assert End(weights, i) == key;
    assert IsUpper(m, draw, key);
  }
}
