/** The documented share of a scenario: of all requests, it gets the part that its weight is of all weights,
    however many requests it is made of.  The share is taken over the draws that can be made, each of which runs
    the scenario that the schedule gives for it.
 */
module Shares {

  import opened Basics
  import opened CommonMultiples
  import opened FiniteSets
  import opened Scheduler

  /** How many of the first `n` draws the map `m` answers with index `i`. */
  ghost function PickHits(m: map<nat, nat>, i: nat, n: nat): nat {
    if n == 0 then 0 else PickHits(m, i, n - 1) + (if Picked(m, n - 1, i) then 1 else 0)
  }

  ghost function AllPickHits(m: map<nat, nat>, count: nat, n: nat): (hits: seq<nat>)
    ensures |hits| == count
  {
    seq(count, i requires 0 <= i < count => PickHits(m, i, n))
  }

  /** The requests that `hits` runs of every scenario cause, for the first `k` scenarios. */
  ghost function Caused(scenarios: seq<Scenario>, hits: seq<nat>, k: nat): nat
    requires |hits| == |scenarios| && k <= |scenarios|
  {
    if k == 0 then 0 else Caused(scenarios, hits, k - 1) + hits[k - 1] * scenarios[k - 1].requests
  }

  ghost function TotalWeight(scenarios: seq<Scenario>, k: nat): nat
    requires k <= |scenarios|
  {
    if k == 0 then 0 else TotalWeight(scenarios, k - 1) + scenarios[k - 1].weight
  }

  /** Scenario `i` causes the part of all requests that its weight is of all weights. */
  ghost predicate ShareAt(scenarios: seq<Scenario>, hits: seq<nat>, i: nat)
    requires |hits| == |scenarios| && i < |scenarios|
  {
    hits[i] * scenarios[i].requests * TotalWeight(scenarios, |scenarios|)
      == scenarios[i].weight * Caused(scenarios, hits, |scenarios|)
  }

  ghost predicate Proportional(scenarios: seq<Scenario>, hits: seq<nat>)
    requires |hits| == |scenarios|
  {
    forall i :: 0 <= i < |scenarios| ==> ShareAt(scenarios, hits, i)
  }

  ghost predicate OneWeighted(scenarios: seq<Scenario>) {
    forall i, j :: 0 <= i < |scenarios| && 0 <= j < |scenarios| && scenarios[i].weight > 0 && scenarios[j].weight > 0
                   ==> i == j
  }

  // ---------------------------------------------------------------------------------------
  // Picks and buckets
  // ---------------------------------------------------------------------------------------

  lemma PickedIff(m: map<nat, nat>, widths: seq<nat>, draw: nat, i: nat)
    requires Schedules(m, widths, |widths|) && draw < Start(widths, |widths|) && i < |widths|
    ensures Picked(m, draw, i) <==> InBucket(widths, i, draw)
  {
    var b := BucketExists(widths, |widths|, draw);
    if Picked(m, draw, i) {
      PickedIsBucket(m, widths, draw, i);
    }
    assert IsUpper(m, draw, End(widths, b)) by {
      forall k | k in m && k > draw
        ensures End(widths, b) <= k
      {
        if m[k] < b {
          StartMonotone(widths, m[k] + 1, b);
        } else {
          StartMonotone(widths, b + 1, m[k] + 1);
        }
      }
    }
    assert Picked(m, draw, b);
  }

  /** As many draws pick a scenario as lie in its bucket. */
  lemma {:induction false} PickHitsAre(m: map<nat, nat>, widths: seq<nat>, i: nat, n: nat)
    requires Schedules(m, widths, |widths|) && n <= Start(widths, |widths|) && i < |widths|
    ensures PickHits(m, i, n) == Hits(widths, i, n)
    decreases n
  {
    hide Schedules;
    hide Picked;
    hide InBucket;
    if n > 0 {
      PickHitsAre(m, widths, i, n - 1);
      PickedIff(m, widths, n - 1, i);
    }
  }

  // ---------------------------------------------------------------------------------------
  // Sums
  // ---------------------------------------------------------------------------------------

  ghost predicate Within(scenarios: seq<Scenario>, multiple: nat, hits: seq<nat>)
    requires AllHaveRequests(scenarios) && |hits| == |scenarios|
  {
    forall i :: 0 <= i < |scenarios| ==> hits[i] <= Width(scenarios[i], multiple)
  }

  /** Where no bucket is hit more often than it is wide, the requests are at most the weights times the multiple,
      and less if a bucket is hit less often. */
  lemma {:induction false} CausedAtMost(scenarios: seq<Scenario>, multiple: nat, hits: seq<nat>, k: nat)
    requires AllHaveRequests(scenarios) && MultipleOfAll(scenarios, multiple)
    requires |hits| == |scenarios| && Within(scenarios, multiple, hits) && k <= |scenarios|
    ensures Caused(scenarios, hits, k) <= TotalWeight(scenarios, k) * multiple
    ensures (exists i :: 0 <= i < k && hits[i] < Width(scenarios[i], multiple)) ==>
              Caused(scenarios, hits, k) < TotalWeight(scenarios, k) * multiple
    ensures (forall i :: 0 <= i < k ==> hits[i] == Width(scenarios[i], multiple)) ==>
              Caused(scenarios, hits, k) == TotalWeight(scenarios, k) * multiple
    decreases k
  {
    if k > 0 {
      CausedAtMost(scenarios, multiple, hits, k - 1);
      var s, h := scenarios[k - 1], hits[k - 1];
      WidthIsExact(s, multiple);
      hide Width;
      TimesMonotone(h, Width(s, multiple), s.requests);
      Distribute(TotalWeight(scenarios, k - 1), s.weight, multiple);
    }
  }

  lemma TimesMonotone(a: nat, b: nat, n: nat)
    requires a <= b && n > 0
    ensures a * n <= b * n && (a < b ==> a * n < b * n)
  {
    assert (b - a) * n == b * n - a * n;
    assert a < b ==> (b - a) * n > 0;
  }

  lemma Distribute(a: nat, b: nat, n: nat)
    ensures (a + b) * n == a * n + b * n
  {
  }

  lemma Rearrange(w: nat, m: nat, t: nat)
    ensures (w * m) * t == w * (t * m)
  {
  }

  lemma {:induction false} CausedAtLeast(scenarios: seq<Scenario>, hits: seq<nat>, i: nat, k: nat)
    requires |hits| == |scenarios| && i < k <= |scenarios|
    ensures hits[i] * scenarios[i].requests <= Caused(scenarios, hits, k)
    decreases k
  {
    if i < k - 1 {
      CausedAtLeast(scenarios, hits, i, k - 1);
    }
    NotNegative(hits[k - 1], scenarios[k - 1].requests);
  }

  lemma NotNegative(a: nat, b: nat)
    ensures a * b >= 0
    ensures a > 0 && b > 0 ==> a * b > 0
  {
  }

  /** If only scenario `i` has a weight, and only it is hit, both sums are its own. */
  lemma {:induction false} SumsOfOne(scenarios: seq<Scenario>, hits: seq<nat>, i: nat, k: nat)
    requires |hits| == |scenarios| && i < |scenarios| && k <= |scenarios|
    requires forall j :: 0 <= j < |scenarios| && j != i ==> scenarios[j].weight == 0 && hits[j] == 0
    ensures TotalWeight(scenarios, k) == if i < k then scenarios[i].weight else 0
    ensures Caused(scenarios, hits, k) == if i < k then hits[i] * scenarios[i].requests else 0
    decreases k
  {
    if k > 0 {
      SumsOfOne(scenarios, hits, i, k - 1);
      assert k - 1 != i ==> hits[k - 1] * scenarios[k - 1].requests == 0;
    }
  }

  // ---------------------------------------------------------------------------------------
  // The three cases
  // ---------------------------------------------------------------------------------------

  /** All draws: every scenario gets its share. */
  lemma FullIsProportional(scenarios: seq<Scenario>, multiple: nat, hits: seq<nat>)
    requires AllHaveRequests(scenarios) && MultipleOfAll(scenarios, multiple) && |hits| == |scenarios|
    requires forall i :: 0 <= i < |scenarios| ==> hits[i] == Width(scenarios[i], multiple)
    ensures Proportional(scenarios, hits)
  {
    var n := |scenarios|;
    CausedAtMost(scenarios, multiple, hits, n);
    forall i | 0 <= i < n
      ensures ShareAt(scenarios, hits, i)
    {
      WidthIsExact(scenarios[i], multiple);
      hide Width;
      hide Caused;
      hide TotalWeight;
      Rearrange(scenarios[i].weight, multiple, TotalWeight(scenarios, n));
    }
  }

  /** One scenario with a weight: it gets everything. */
  lemma OneIsProportional(scenarios: seq<Scenario>, hits: seq<nat>, i: nat)
    requires |hits| == |scenarios| && i < |scenarios|
    requires forall j :: 0 <= j < |scenarios| && j != i ==> scenarios[j].weight == 0 && hits[j] == 0
    ensures Proportional(scenarios, hits)
  {
    var n := |scenarios|;
    SumsOfOne(scenarios, hits, i, n);
    hide Caused;
    hide TotalWeight;
    forall j | 0 <= j < n
      ensures ShareAt(scenarios, hits, j)
    {
      if j != i {
        assert hits[j] * scenarios[j].requests == 0;
      }
    }
  }

  /** A bucket that was left out completely, beside one that was hit. */
  lemma LeftOutIsNot(scenarios: seq<Scenario>, hits: seq<nat>, hit: nat, out: nat)
    requires AllHaveRequests(scenarios) && |hits| == |scenarios| && hit < |scenarios| && out < |scenarios|
    requires hits[hit] > 0 && hits[out] == 0 && scenarios[out].weight > 0
    ensures !Proportional(scenarios, hits)
  {
    var n := |scenarios|;
    CausedAtLeast(scenarios, hits, hit, n);
    NotNegative(hits[hit], scenarios[hit].requests);
    NotNegative(scenarios[out].weight, Caused(scenarios, hits, n));
    hide Caused;
    hide TotalWeight;
    assert hits[out] * scenarios[out].requests == 0;
    assert !ShareAt(scenarios, hits, out);
  }

  /** A bucket that was hit as often as it is wide, beside one that was hit less often. */
  lemma CutIsNot(scenarios: seq<Scenario>, multiple: nat, hits: seq<nat>, full: nat, cut: nat)
    requires AllHaveRequests(scenarios) && MultipleOfAll(scenarios, multiple)
    requires |hits| == |scenarios| && Within(scenarios, multiple, hits)
    requires full < |scenarios| && scenarios[full].weight > 0 && hits[full] == Width(scenarios[full], multiple)
    requires cut < |scenarios| && hits[cut] < Width(scenarios[cut], multiple)
    ensures !Proportional(scenarios, hits)
  {
    var n, w := |scenarios|, scenarios[full].weight;
    CausedAtMost(scenarios, multiple, hits, n);
    WidthIsExact(scenarios[full], multiple);
    hide Width;
    hide Caused;
    hide TotalWeight;
    var total, caused := TotalWeight(scenarios, n), Caused(scenarios, hits, n);
    Rearrange(w, multiple, total);
    TimesMonotone(caused, total * multiple, w);
    assert !ShareAt(scenarios, hits, full);
  }

  // ---------------------------------------------------------------------------------------
  // The theorem
  // ---------------------------------------------------------------------------------------

  ghost predicate HitAt(widths: seq<nat>, s: Scenario, hit: nat, i: nat, n: nat)
    requires i < |widths| && n <= Start(widths, |widths|)
  {
    && hit <= widths[i]
    && (widths[i] > 0 <==> s.weight > 0)
    && (n == Start(widths, |widths|) ==> hit == widths[i])
    && (n <= Start(widths, i) ==> hit == 0)
    && (InBucket(widths, i, n) ==> hit < widths[i])
    && (InBucket(widths, i, 0) && n > 0 ==> hit > 0 && (n > End(widths, i) ==> hit == widths[i]))
  }

  lemma HitFacts(scenarios: seq<Scenario>, multiple: nat, i: nat, n: nat)
    requires AllHaveRequests(scenarios) && MultipleOfAll(scenarios, multiple) && i < |scenarios|
    requires n <= Start(Widths(scenarios, multiple), |scenarios|)
    ensures var widths := Widths(scenarios, multiple);
            widths[i] == Width(scenarios[i], multiple) && HitAt(widths, scenarios[i], Hits(widths, i, n), i, n)
  {
    var widths := Widths(scenarios, multiple);
    HitsBelow(widths, i, n);
    WidthPositive(scenarios[i], multiple);
    StartMonotone(widths, i + 1, |widths|);
  }

  /** The first bucket that is not empty lies before all others. */
  lemma FirstBucket(widths: seq<nat>, a: nat, b: nat)
    requires InBucket(widths, a, 0) && b < |widths| && b != a && widths[b] > 0
    ensures End(widths, a) <= Start(widths, b)
  {
    if b < a {
      StartMonotone(widths, b + 1, a);
    } else {
      StartMonotone(widths, a + 1, b);
    }
  }

  lemma Another(scenarios: seq<Scenario>, a: nat) returns (b: nat)
    requires !OneWeighted(scenarios)
    ensures b < |scenarios| && b != a && scenarios[b].weight > 0
  {
    var i, j :| 0 <= i < |scenarios| && 0 <= j < |scenarios| && scenarios[i].weight > 0 && scenarios[j].weight > 0
                && i != j;
    b := if i == a then j else i;
  }

  /** The hits of the first `n` draws give every scenario its share if and only if these are all draws, or only
      one scenario has a weight. */
  lemma HitsAreSharesIff(scenarios: seq<Scenario>, multiple: nat, hits: seq<nat>, n: nat)
    requires AllHaveRequests(scenarios) && MultipleOfAll(scenarios, multiple)
    requires |hits| == |scenarios| && 0 < n <= Start(Widths(scenarios, multiple), |scenarios|)
    requires forall i :: 0 <= i < |scenarios| ==> hits[i] == Hits(Widths(scenarios, multiple), i, n)
    ensures Proportional(scenarios, hits)
            <==> n == Start(Widths(scenarios, multiple), |scenarios|) || OneWeighted(scenarios)
  {
    var widths := Widths(scenarios, multiple);
    var a := BucketExists(widths, |widths|, 0);
    forall i | 0 <= i < |scenarios|
      ensures widths[i] == Width(scenarios[i], multiple) && HitAt(widths, scenarios[i], hits[i], i, n)
    {
      HitFacts(scenarios, multiple, i, n);
    }
    hide Proportional;
    hide Hits;
    hide Width;
    hide Widths;
    hide MultipleOfAll;
    assert HitAt(widths, scenarios[a], hits[a], a, n);
    if n == Start(widths, |widths|) {
      FullIsProportional(scenarios, multiple, hits);
    } else if OneWeighted(scenarios) {
      OneIsProportional(scenarios, hits, a);
    } else {
      hide OneWeighted;
      var b := Another(scenarios, a);
      assert HitAt(widths, scenarios[b], hits[b], b, n);
      FirstBucket(widths, a, b);
      if n <= End(widths, a) {
        LeftOutIsNot(scenarios, hits, a, b);
      } else {
        var cut := BucketExists(widths, |widths|, n);
        assert HitAt(widths, scenarios[cut], hits[cut], cut, n);
        CutIsNot(scenarios, multiple, hits, a, cut);
      }
    }
  }

  /** The draws that can be made give every scenario its documented share if and only if the total is at most
      2^31, or only one scenario has a weight.  For every schedule that does not wrap and has a draw. */
  lemma SharesAreDrawnIff(scenarios: seq<Scenario>, multiple: nat)
    requires AllHaveRequests(scenarios) && MultipleOfAll(scenarios, multiple) && NoWrap(scenarios, multiple)
    requires Build(scenarios, multiple, |scenarios|).m != map[]
    requires DrawCount(LargestKey(Build(scenarios, multiple, |scenarios|).m)) > 0
    ensures var m := Build(scenarios, multiple, |scenarios|).m;
            Proportional(scenarios, AllPickHits(m, |scenarios|, DrawCount(LargestKey(m))))
            <==> LargestKey(m) <= INT_LIMIT || OneWeighted(scenarios)
  {
    hide Build;
    hide NoWrap;
    hide Widths;
    hide MultipleOfAll;
    hide DrawCount;
    hide Proportional;
    hide OneWeighted;
    hide Hits;
    hide PickHits;
    hide LargestKey;
    var m, widths := Build(scenarios, multiple, |scenarios|).m, Widths(scenarios, multiple);
    BuildSchedules(scenarios, multiple, |scenarios|);
    hide Schedules;
    LargestKeyOfBuckets(m, widths);
    var n := DrawCount(LargestKey(m));
    DrawCountIff(LargestKey(m));
    var hits := AllPickHits(m, |scenarios|, n);
    forall i | 0 <= i < |scenarios|
      ensures hits[i] == Hits(widths, i, n)
    {
      PickHitsAre(m, widths, i, n);
    }
    HitsAreSharesIff(scenarios, multiple, hits, n);
  }

  // ---------------------------------------------------------------------------------------
  // Responses
  // ---------------------------------------------------------------------------------------

  /** The responses of a service, each a scenario of one request. */
  ghost function AsScenarios(weights: seq<nat>): (scenarios: seq<Scenario>)
    ensures |scenarios| == |weights| && AllHaveRequests(scenarios) && MultipleOfAll(scenarios, 1)
    ensures Widths(scenarios, 1) == weights
  {
    seq(|weights|, i requires 0 <= i < |weights| => Scenario(weights[i], 1))
  }

  lemma {:induction false} SumsOfWeights(weights: seq<nat>, hits: seq<nat>, k: nat)
    requires |hits| == |weights| && k <= |weights|
    ensures TotalWeight(AsScenarios(weights), k) == Start(weights, k)
    ensures Caused(AsScenarios(weights), hits, k) == Start(hits, k)
    decreases k
  {
    if k > 0 {
      SumsOfWeights(weights, hits, k - 1);
    }
  }

  /** The first buckets are hit until the draws are used up. */
  lemma {:induction false} HitsSumUp(widths: seq<nat>, hits: seq<nat>, n: nat, k: nat)
    requires |hits| == |widths| && k <= |widths|
    requires forall i :: 0 <= i < |widths| ==> hits[i] == Hits(widths, i, n)
    ensures Start(hits, k) == Min(n, Start(widths, k))
    decreases k
  {
    if k > 0 {
      HitsSumUp(widths, hits, n, k - 1);
      HitsBelow(widths, k - 1, n);
    }
  }

  /** Of the `n` draws, response `i` gets the part that its weight is of all weights. */
  ghost predicate ResponseShareAt(weights: seq<nat>, hits: seq<nat>, n: nat, i: nat)
    requires |hits| == |weights| && i < |weights|
  {
    hits[i] * Start(weights, |weights|) == weights[i] * n
  }

  lemma ResponseShareIs(weights: seq<nat>, hits: seq<nat>, n: nat, i: nat)
    requires |hits| == |weights| && i < |weights| && n <= Start(weights, |weights|)
    requires forall j :: 0 <= j < |weights| ==> hits[j] == Hits(weights, j, n)
    ensures ResponseShareAt(weights, hits, n, i) <==> ShareAt(AsScenarios(weights), hits, i)
  {
    SumsOfWeights(weights, hits, |weights|);
    HitsSumUp(weights, hits, n, |weights|);
    hide Caused;
    hide TotalWeight;
    hide Hits;
    hide Start;
    var s := AsScenarios(weights)[i];
    assert s.weight == weights[i] && s.requests == 1;
    assert hits[i] * s.requests == hits[i];
  }

  /** Each response gets its part of the draws that can be made if and only if the weights sum to at most 2^31, or
      only one response has a weight. */
  lemma ResponseSharesIff(weights: seq<nat>, m: map<nat, nat>)
    requires Schedules(m, weights, |weights|) && m != map[] && DrawCount(LargestKey(m)) > 0
    ensures var n := DrawCount(LargestKey(m));
            (forall i :: 0 <= i < |weights| ==> ResponseShareAt(weights, AllPickHits(m, |weights|, n), n, i))
            <==> LargestKey(m) <= INT_LIMIT || OneWeighted(AsScenarios(weights))
  {
    hide DrawCount;
    hide OneWeighted;
    hide Hits;
    hide PickHits;
    hide LargestKey;
    hide Schedules;
    hide AsScenarios;
    hide ShareAt;
    hide ResponseShareAt;
    var scenarios, n := AsScenarios(weights), DrawCount(LargestKey(m));
    LargestKeyOfBuckets(m, weights);
    DrawCountIff(LargestKey(m));
    var hits := AllPickHits(m, |weights|, n);
    forall i | 0 <= i < |weights|
      ensures hits[i] == Hits(weights, i, n)
    {
      PickHitsAre(m, weights, i, n);
    }
    hide AllPickHits;
    HitsAreSharesIff(scenarios, 1, hits, n);
    forall i | 0 <= i < |weights|
      ensures ResponseShareAt(weights, hits, n, i) <==> ShareAt(scenarios, hits, i)
    {
      ResponseShareIs(weights, hits, n, i);
    }
  }

  // ---------------------------------------------------------------------------------------
  // Schedules at and past the limits
  // ---------------------------------------------------------------------------------------

  /** A total above 2^31 that still gives the documented shares: the only weight is that of the first scenario. */
  lemma LargeTotalOfOne()
    ensures var scenarios, multiple := [Scenario(1431655767, 1), Scenario(0, 3)], 3;
            var m := Build(scenarios, multiple, 2).m;
            && m != map[] && LargestKey(m) == 4294967301 && DrawCount(LargestKey(m)) == 5
            && Proportional(scenarios, AllPickHits(m, 2, 5))
  {
    var scenarios, multiple := [Scenario(1431655767, 1), Scenario(0, 3)], 3;
    assert Width64(scenarios[0], 3) == 4294967301;
    assert Build(scenarios, multiple, 0) == Table(map[], 0);
    assert Build(scenarios, multiple, 1) == Table(map[4294967301 := 0], 4294967301);
    var m := Build(scenarios, multiple, 2).m;
    assert m == map[4294967301 := 0];
    assert 4294967301 in m;
    assert LargestKey(m) in m;
    assert 4294967300 % INT_RANGE == 4;
    var widths := Widths(scenarios, multiple);
    assert widths == [4294967301, 0];
    assert Start(widths, 0) == 0 && Start(widths, 1) == Start(widths, 0) + widths[0];
    assert Start(widths, 2) == Start(widths, 1) + widths[1] == 4294967301;
    assert NoWrap(scenarios, multiple);
    hide *;
    SharesAreDrawnIff(scenarios, multiple);
  }

  lemma PickedOfTwo(low: nat, a: nat, high: nat, b: nat, draw: nat, i: nat)
    requires low < high && draw < high
    ensures Picked(map[low := a, high := b], draw, i) <==> i == if draw < low then a else b
  {
    var m := map[low := a, high := b];
    assert low in m && high in m;
    var key := if draw < low then low else high;
    assert IsUpper(m, draw, key) && m[key] == if draw < low then a else b;
    forall k | IsUpper(m, draw, k)
      ensures k == key
    {
    }
  }

  /** A map of two keys: the draws below the first, and the others. */
  lemma {:induction false} HitsOfTwo(low: nat, a: nat, high: nat, b: nat, i: nat, n: nat)
    requires low < high && n <= high && a != b
    ensures PickHits(map[low := a, high := b], i, n)
            == if i == a then Min(n, low) else if i == b then n - Min(n, low) else 0
    decreases n
  {
    hide Picked;
    if n > 0 {
      HitsOfTwo(low, a, high, b, i, n - 1);
      PickedOfTwo(low, a, high, b, n - 1, i);
    }
  }

  const WRAPPING: nat := 0x8000_0000_0000_0001

  /** The map of two scenarios of one request with weights `v` and 1, for a multiple that makes a product wrap. */
  lemma WrappedMap(v: nat, first: nat, second: nat)
    requires 0 < v && v * WRAPPING % WORD_LIMIT == first && (first + WRAPPING) % WORD_LIMIT == second
    ensures var scenarios := [Scenario(v, 1), Scenario(1, 1), Scenario(0, WRAPPING)];
            && AllHaveRequests(scenarios) && MultipleOfAll(scenarios, WRAPPING)
            && Build(scenarios, WRAPPING, 3).m == map[first := 0, second := 1]
  {
    var scenarios := [Scenario(v, 1), Scenario(1, 1), Scenario(0, WRAPPING)];
    assert Width64(scenarios[0], WRAPPING) == first;
    assert Width64(scenarios[1], WRAPPING) == WRAPPING;
    assert Add64(0, first) == first && Add64(first, WRAPPING) == second;
    hide Width64;
    hide Add64;
    assert Build(scenarios, WRAPPING, 0) == Table(map[], 0);
    assert Build(scenarios, WRAPPING, 1) == Table(map[first := 0], first);
    assert Build(scenarios, WRAPPING, 2) == Table(map[first := 0, second := 1], second);
  }

  /** A product that wraps can take all draws from the scenario with the greater weight. */
  lemma WrappedLosesScenario()
    ensures var scenarios := [Scenario(3, 1), Scenario(1, 1), Scenario(0, WRAPPING)];
            var m := Build(scenarios, WRAPPING, 3).m;
            && MultipleOfAll(scenarios, WRAPPING) && m != map[] && DrawCount(LargestKey(m)) == 3
            && AllPickHits(m, 3, 3) == [0, 3, 0] && !Proportional(scenarios, AllPickHits(m, 3, 3))
  {
    var scenarios := [Scenario(3, 1), Scenario(1, 1), Scenario(0, WRAPPING)];
    var low, high := 4, 0x8000_0000_0000_0003;
    WrappedMap(3, high, low);
    var m := Build(scenarios, WRAPPING, 3).m;
    hide Build;
    assert m == map[low := 1, high := 0];
    assert low in m && high in m && LargestKey(m) in m;
    assert DrawCount(high) == 3;
    hide DrawCount;
    HitsOfTwo(low, 1, high, 0, 0, 3);
    HitsOfTwo(low, 1, high, 0, 1, 3);
    HitsOfTwo(low, 1, high, 0, 2, 3);
    hide PickHits;
    var hits := AllPickHits(m, 3, 3);
    assert hits == [0, 3, 0];
    hide AllPickHits;
    LeftOutIsNot(scenarios, hits, 1, 0);
  }

  /** And it can leave the shares as they should be. */
  lemma WrappedKeepsShares()
    ensures var scenarios := [Scenario(2, 1), Scenario(1, 1), Scenario(0, WRAPPING)];
            var m := Build(scenarios, WRAPPING, 3).m;
            && MultipleOfAll(scenarios, WRAPPING) && !NoWrap(scenarios, WRAPPING)
            && m != map[] && DrawCount(LargestKey(m)) == 3 && Proportional(scenarios, AllPickHits(m, 3, 3))
  {
    var scenarios := [Scenario(2, 1), Scenario(1, 1), Scenario(0, WRAPPING)];
    var low, high := 2, 0x8000_0000_0000_0003;
    WrappedMap(2, low, high);
    assert Overflows(scenarios[0], WRAPPING);
    var m := Build(scenarios, WRAPPING, 3).m;
    hide Build;
    assert low in m && high in m && LargestKey(m) in m;
    assert DrawCount(high) == 3;
    hide DrawCount;
    HitsOfTwo(low, 0, high, 1, 0, 3);
    HitsOfTwo(low, 0, high, 1, 1, 3);
    HitsOfTwo(low, 0, high, 1, 2, 3);
    hide PickHits;
    var hits := AllPickHits(m, 3, 3);
    assert hits == [2, 1, 0];
    hide AllPickHits;
    assert TotalWeight(scenarios, 1) == 2 && TotalWeight(scenarios, 2) == 3 && TotalWeight(scenarios, 3) == 3;
    assert Caused(scenarios, hits, 1) == 2 && Caused(scenarios, hits, 2) == 3 && Caused(scenarios, hits, 3) == 3;
    hide TotalWeight;
    hide Caused;
    assert ShareAt(scenarios, hits, 0) && ShareAt(scenarios, hits, 1) && ShareAt(scenarios, hits, 2);
  }
}
