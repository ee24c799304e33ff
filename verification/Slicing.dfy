/** The values of user-id variables: a slice of the range for each client, a cursor that cycles through the
    slice, and values padded to one length. */
module Slicing {

  import opened Basics

  // Slices.

  datatype Slice = Slice(start: nat, end: nat)

  ghost predicate In(s: Slice, v: nat) { s.start <= v < s.end }

  /** The slice of client `id` of `n` of the numbers from `lo` to `hi`; None when there are fewer of them than
      clients, which ends the program. */
  function SliceOf(lo: nat, hi: nat, n: nat, id: nat): Option<Slice>
    requires n > 0 && lo <= hi
  {
    var tokens := (hi - lo) / n;
    if tokens == 0 then None else
    var left := (hi - lo) % n;
    var start := lo + id * tokens + Min(id, left);
    Some(Slice(start, start + tokens + if id >= left then 0 else 1))
  }

  /** Where the slice of client `id` begins, also for `id == n`. */
  ghost function Boundary(lo: nat, hi: nat, n: nat, id: nat): nat
    requires n > 0 && lo <= hi
  {
    lo + id * ((hi - lo) / n) + Min(id, (hi - lo) % n)
  }

  lemma Boundaries(lo: nat, hi: nat, n: nat, id: nat)
    requires n > 0 && lo <= hi && hi - lo >= n
    ensures SliceOf(lo, hi, n, id) == Some(Slice(Boundary(lo, hi, n, id), Boundary(lo, hi, n, id + 1)))
    ensures Boundary(lo, hi, n, 0) == lo && Boundary(lo, hi, n, n) == hi
    ensures Boundary(lo, hi, n, id) < Boundary(lo, hi, n, id + 1)
  {
    var tokens := (hi - lo) / n;
    assert tokens >= 1;
    assert (id + 1) * tokens == id * tokens + tokens;
    assert n * tokens + (hi - lo) % n == hi - lo;
  }

  lemma {:induction false} BoundaryMonotone(lo: nat, hi: nat, n: nat, i: nat, j: nat)
    requires n > 0 && lo <= hi && hi - lo >= n && i <= j
    ensures Boundary(lo, hi, n, i) <= Boundary(lo, hi, n, j)
    decreases j
  {
    if i < j {
      hide Boundary;
      Boundaries(lo, hi, n, j - 1);
      BoundaryMonotone(lo, hi, n, i, j - 1);
    }
  }

  /** The slices of the clients are a partition of the range: every value belongs to exactly one client, and
      a client has no other values. */
  lemma SlicesPartition(lo: nat, hi: nat, n: nat, v: nat) returns (owner: nat)
    requires n > 0 && lo <= hi && hi - lo >= n && lo <= v < hi
    ensures owner < n && SliceOf(lo, hi, n, owner).Some? && In(SliceOf(lo, hi, n, owner).value, v)
    ensures forall id :: 0 <= id < n && SliceOf(lo, hi, n, id).Some? && In(SliceOf(lo, hi, n, id).value, v)
              ==> id == owner
  {
    hide Boundary;
    hide SliceOf;
    Boundaries(lo, hi, n, 0);
    owner := Owner(lo, hi, n, n, v);
    Boundaries(lo, hi, n, owner);
    forall id | 0 <= id < n && SliceOf(lo, hi, n, id).Some? && In(SliceOf(lo, hi, n, id).value, v)
      ensures id == owner
    {
      Boundaries(lo, hi, n, id);
      if id < owner {
        BoundaryMonotone(lo, hi, n, id + 1, owner);
      } else if owner < id {
        BoundaryMonotone(lo, hi, n, owner + 1, id);
      }
    }
  }

  lemma {:induction false} Owner(lo: nat, hi: nat, n: nat, k: nat, v: nat) returns (owner: nat)
    requires n > 0 && lo <= hi && hi - lo >= n && k <= n
    requires Boundary(lo, hi, n, 0) <= v < Boundary(lo, hi, n, k)
    ensures owner < k && Boundary(lo, hi, n, owner) <= v < Boundary(lo, hi, n, owner + 1)
    decreases k
  {
    hide Boundary;
    if v < Boundary(lo, hi, n, k - 1) {
      owner := Owner(lo, hi, n, k - 1, v);
    } else {
      owner := k - 1;
    }
  }

  lemma SliceInRange(lo: nat, hi: nat, n: nat, id: nat)
    requires n > 0 && lo <= hi && hi - lo >= n && id < n
    ensures SliceOf(lo, hi, n, id).Some?
    ensures var s := SliceOf(lo, hi, n, id).value; lo <= s.start < s.end <= hi
  {
    hide Boundary;
    Boundaries(lo, hi, n, id);
    BoundaryMonotone(lo, hi, n, 0, id);
    BoundaryMonotone(lo, hi, n, id + 1, n);
  }

  /** Two clients have no value in common. */
  lemma SlicesDisjoint(lo: nat, hi: nat, n: nat, a: nat, b: nat, v: nat)
    requires n > 0 && lo <= hi && hi - lo >= n && a < n && b < n
    requires SliceOf(lo, hi, n, a).Some? && In(SliceOf(lo, hi, n, a).value, v)
    requires SliceOf(lo, hi, n, b).Some? && In(SliceOf(lo, hi, n, b).value, v)
    ensures a == b
  {
    hide SliceOf;
    SliceInRange(lo, hi, n, a);
    var owner := SlicesPartition(lo, hi, n, v);
  }

  // The same in 64-bit arithmetic.

  /** The unsigned difference; a range may have the end 0 below its start. */
  function RangeSize(lo: nat, hi: nat): nat
    requires lo < WORD_LIMIT
  {
    if lo <= hi then hi - lo else hi + WORD_LIMIT - lo
  }

  /** Unsigned arithmetic gives the slice of a range of that size, modulo 2^64. */
  function Slice64(lo: nat, hi: nat, n: nat, id: nat): Option<Slice>
    requires n > 0 && lo < WORD_LIMIT
  {
    match SliceOf(lo, lo + RangeSize(lo, hi), n, id)
    case None => None
    case Some(s) => Some(Slice(s.start % WORD_LIMIT, s.end % WORD_LIMIT))
  }

  /** Slicing fails exactly when there are fewer values than clients. */
  lemma SlicesExistIff(lo: nat, hi: nat, n: nat, id: nat)
    requires n > 0 && lo < WORD_LIMIT
    ensures Slice64(lo, hi, n, id).Some? <==> RangeSize(lo, hi) >= n
  {
    var size := RangeSize(lo, hi);
    if size >= n {
      assert size / n >= 1;
    } else {
      assert size / n == 0;
    }
  }

  /** In a range whose end is not below its start nothing wraps; if the end is 0 below the start, the slices
      are those of all numbers from the start to 2^64, and only the last end wraps. */
  lemma Slice64Is(lo: nat, hi: nat, n: nat, id: nat)
    requires id < n && lo < WORD_LIMIT && (lo <= hi < WORD_LIMIT || hi == 0)
    ensures var end := if lo <= hi then hi else WORD_LIMIT;
            match SliceOf(lo, end, n, id)
            case None => Slice64(lo, hi, n, id) == None
            case Some(s) => s.start < WORD_LIMIT && Slice64(lo, hi, n, id) == Some(Slice(s.start, s.end % WORD_LIMIT))
  {
    var end := if lo <= hi then hi else WORD_LIMIT;
    hide SliceOf;
    assert lo + RangeSize(lo, hi) == end;
    if end - lo >= n {
      SliceInRange(lo, end, n, id);
      Small(SliceOf(lo, end, n, id).value.start);
    } else {
      TooFew(lo, end, n, id);
    }
  }

  lemma TooFew(lo: nat, hi: nat, n: nat, id: nat)
    requires lo <= hi && hi - lo < n
    ensures SliceOf(lo, hi, n, id) == None
  {
    assert (hi - lo) / n == 0;
  }

  // Cursors.

  function Next(s: Slice, cursor: nat): nat {
    if s.end <= s.start then cursor
    else if cursor + 1 >= s.end then s.start
    else cursor + 1
  }

  ghost function After(s: Slice, cursor: nat, k: nat): nat {
    if k == 0 then cursor else Next(s, After(s, cursor, k - 1))
  }

  /** A cursor stays in its slice; one drawn from the closed range is in it after the first step. */
  lemma NextInSlice(s: Slice, cursor: nat)
    requires s.start < s.end && s.start <= cursor
    ensures In(s, Next(s, cursor))
  {
  }

  lemma {:induction false} AfterInSlice(s: Slice, cursor: nat, k: nat)
    requires In(s, cursor)
    ensures In(s, After(s, cursor, k))
    decreases k
  {
    if k > 0 {
      AfterInSlice(s, cursor, k - 1);
    }
  }

  /** Where a cursor is after at most one cycle. */
  lemma {:induction false} AfterWithinCycle(s: Slice, cursor: nat, k: nat)
    requires In(s, cursor) && k <= s.end - s.start
    ensures After(s, cursor, k) == if cursor + k < s.end then cursor + k else cursor + k - (s.end - s.start)
    decreases k
  {
    if k > 0 {
      AfterWithinCycle(s, cursor, k - 1);
    }
  }

  /** Within one cycle the cursor visits every value of the slice, each once, and comes back. */
  lemma CycleVisitsEachOnce(s: Slice, cursor: nat, v: nat) returns (when: nat)
    requires In(s, cursor) && In(s, v)
    ensures After(s, cursor, s.end - s.start) == cursor
    ensures when < s.end - s.start && After(s, cursor, when) == v
    ensures forall k: nat :: k < s.end - s.start && After(s, cursor, k) == v ==> k == when
  {
    var len := s.end - s.start;
    AfterWithinCycle(s, cursor, len);
    when := if cursor <= v then v - cursor else v + len - cursor;
    AfterWithinCycle(s, cursor, when);
    forall k: nat | k < len && After(s, cursor, k) == v ensures k == when {
      AfterWithinCycle(s, cursor, k);
    }
  }

  /** Scenario_Data_Per_Client. */
  class ClientCursors {
    var slices: seq<Slice>
    var cursors: seq<nat>

    ghost predicate Valid()
      reads this
    {
      |slices| == |cursors|
    }

    constructor (slices: seq<Slice>, cursors: seq<nat>)
      requires |slices| == |cursors|
      ensures Valid() && this.slices == slices && this.cursors == cursors
    {
      this.slices, this.cursors := slices, cursors;
    }

    /** inc_var. */
    method IncVar()
      requires Valid()
      modifies this`cursors
      ensures Valid()
      ensures forall i :: 0 <= i < |slices| ==> cursors[i] == Next(slices[i], old(cursors)[i])
    {
      for i := 0 to |slices|
        invariant |cursors| == |slices|
        invariant forall k :: 0 <= k < i ==> cursors[k] == Next(slices[k], old(cursors)[k])
        invariant forall k :: i <= k < |slices| ==> cursors[k] == old(cursors)[k]
      {
        if slices[i].end <= slices[i].start {
          continue;
        }
        cursors := cursors[i := cursors[i] + 1];
        if cursors[i] >= slices[i].end {
          cursors := cursors[i := slices[i].start];
        }
      }
    }
  }

  /** slice_var_ids with slicing on, for the ranges of the variables of one scenario: the first `pickers`
      variables get their values elsewhere; the cursors start at the beginning of their slices. */
  method SliceVarIds(ranges: seq<Slice>, pickers: nat, n: nat, id: nat) returns (r: Option<ClientCursors>)
    requires n > 0 && forall i :: 0 <= i < |ranges| ==> ranges[i].start < WORD_LIMIT
    ensures r.None? <==> exists i :: pickers <= i < |ranges| && RangeSize(ranges[i].start, ranges[i].end) < n
    ensures r.Some? ==> r.value.Valid() && |r.value.slices| == |ranges|
    ensures r.Some? ==> forall i :: 0 <= i < |ranges| ==> r.value.cursors[i] == r.value.slices[i].start
    ensures r.Some? ==> forall i :: pickers <= i < |ranges| ==>
              Slice64(ranges[i].start, ranges[i].end, n, id) == Some(r.value.slices[i])
    ensures r.Some? ==> forall i :: 0 <= i < |ranges| && i < pickers ==> r.value.slices[i] == Slice(0, 0)
  {
    hide Slice64;
    hide RangeSize;
    var slices: seq<Slice>, cursors: seq<nat> := [], [];
    for i := 0 to |ranges|
      invariant |slices| == |cursors| == i
      invariant forall k :: 0 <= k < i ==> cursors[k] == slices[k].start
      invariant forall k :: pickers <= k < i ==>
                  && RangeSize(ranges[k].start, ranges[k].end) >= n
                  && Slice64(ranges[k].start, ranges[k].end, n, id) == Some(slices[k])
      invariant forall k :: 0 <= k < i && k < pickers ==> slices[k] == Slice(0, 0)
    {
      if i < pickers {
        slices, cursors := slices + [Slice(0, 0)], cursors + [0];
        continue;
      }
      SlicesExistIff(ranges[i].start, ranges[i].end, n, id);
      var slice := Slice64(ranges[i].start, ranges[i].end, n, id);
      if slice.None? {
        return None;
      }
      slices, cursors := slices + [slice.value], cursors + [slice.value.start];
    }
    var data := new ClientCursors(slices, cursors);
    r := Some(data);
  }

  // Values.

  function Digit(d: nat): char
    requires d < 10
  {
    '0' + d as char
  }

  function ToString(n: nat): (s: string)
    ensures |s| > 0
  {
    if n < 10 then [Digit(n)] else ToString(n / 10) + [Digit(n % 10)]
  }

  function Zeros(n: nat): (s: string)
    ensures |s| == n
  {
    if n == 0 then [] else ['0'] + Zeros(n - 1)
  }

  /** What a string of digits means. */
  ghost function Value(s: string): int {
    if s == [] then 0 else 10 * Value(s[..|s| - 1]) + (s[|s| - 1] as int - '0' as int)
  }

  lemma {:induction false} ValueOfToString(n: nat)
    ensures Value(ToString(n)) == n
    decreases n
  {
    if n >= 10 {
      ValueOfToString(n / 10);
      assert ToString(n)[..|ToString(n)| - 1] == ToString(n / 10);
    } else {
      assert ToString(n)[..0] == [];
    }
  }

  lemma {:induction false} ValueOfPadded(k: nat, s: string)
    ensures Value(Zeros(k) + s) == Value(s)
    decreases k + |s|
  {
    if s == [] {
      assert Zeros(k) + s == Zeros(k);
      if k > 0 {
        ZerosSnoc(k - 1);
        ValueOfPadded(k - 1, []);
        assert Zeros(k - 1) + [] == Zeros(k - 1);
        assert Zeros(k)[..k - 1] == Zeros(k - 1);
      }
    } else {
      ValueOfPadded(k, s[..|s| - 1]);
      assert (Zeros(k) + s)[..k + |s| - 1] == Zeros(k) + s[..|s| - 1];
    }
  }

  lemma {:induction false} ZerosSnoc(k: nat)
    ensures Zeros(k + 1) == Zeros(k) + ['0']
  {
    if k > 0 {
      ZerosSnoc(k - 1);
    }
  }

  lemma {:induction false} LengthMonotone(a: nat, b: nat)
    requires a <= b
    ensures |ToString(a)| <= |ToString(b)|
    decreases b
  {
    if a >= 10 {
      LengthMonotone(a / 10, b / 10);
    }
  }

  /** A variable: a table of values, or if that is empty a range. */
  datatype Variable = Variable(values: seq<seq<string>>, start: nat, end: nat)

  /** produce_value; None is the exception raised by a padding of negative length. */
  function ProduceValue(v: Variable, col: nat, id: nat): Option<string> {
    if v.values != [] then
      var column := v.values[col % |v.values|];
      Some(if column == [] then "" else column[id % |column|])
    else if v.end > v.start then
      var digits := ToString(id);
      if |digits| > |ToString(v.end)| then None
      else Some(Zeros(|ToString(v.end)| - |digits|) + digits)
    else Some("")
  }

  function EstimateValueSize(v: Variable, col: nat, id: nat): nat {
    if v.values != [] then
      var column := v.values[col % |v.values|];
      if column == [] then 0 else |column[id % |column|]|
    else if v.end > v.start then |ToString(v.end)|
    else 0
  }

  /** A value has the estimated length, and every id up to the end of the range has a value. */
  lemma EstimateIsExact(v: Variable, col: nat, id: nat)
    ensures ProduceValue(v, col, id).Some? ==>
              |ProduceValue(v, col, id).value| == EstimateValueSize(v, col, id)
    ensures id <= v.end ==> ProduceValue(v, col, id).Some?
  {
    if id <= v.end {
      LengthMonotone(id, v.end);
    }
  }

  /** A table is read by column and row, and both start again at their end. */
  lemma TableCycles(v: Variable, col: nat, id: nat)
    requires col < |v.values| && v.values[col] != []
    ensures id < |v.values[col]| ==> ProduceValue(v, col, id) == Some(v.values[col][id])
    ensures ProduceValue(v, col, id + |v.values[col]|) == ProduceValue(v, col, id)
    ensures ProduceValue(v, col + |v.values|, id) == ProduceValue(v, col, id)
  {
    var n := |v.values[col]|;
    ModPlus(id, n);
    ModPlus(col, |v.values|);
    SmallRemainder(col, |v.values|);
    TableValue(v, col, id);
    TableValue(v, col, id + n);
    TableValue(v, col + |v.values|, id);
    if id < n {
      SmallRemainder(id, n);
    }
    hide ProduceValue;
  }

  lemma SmallRemainder(x: nat, n: nat)
    requires x < n
    ensures x % n == x
  {
  }

  lemma TableValue(v: Variable, col: nat, id: nat)
    requires v.values != []
    ensures var column := v.values[col % |v.values|];
            ProduceValue(v, col, id) == Some(if column == [] then "" else column[id % |column|])
  {
  }

  predicate IsRange(v: Variable) { v.values == [] && v.end > v.start }

  /** The value of a range variable spells its id. */
  lemma ValueSpellsId(v: Variable, col: nat, id: nat)
    requires IsRange(v) && ProduceValue(v, col, id).Some?
    ensures Value(ProduceValue(v, col, id).value) == id
  {
    hide ToString;
    hide Value;
    hide Zeros;
    ValueOfPadded(|ToString(v.end)| - |ToString(id)|, ToString(id));
    ValueOfToString(id);
  }

  /** Distinct ids have distinct values. */
  lemma ValuesDistinct(v: Variable, col: nat, a: nat, b: nat)
    requires IsRange(v) && ProduceValue(v, col, a).Some?
    requires ProduceValue(v, col, a) == ProduceValue(v, col, b)
    ensures a == b
  {
    hide ProduceValue;
    ValueSpellsId(v, col, a);
    ValueSpellsId(v, col, b);
  }

  lemma RangeValuesSameLength(v: Variable, col: nat, a: nat, b: nat, x: string, y: string)
    requires IsRange(v) && ProduceValue(v, col, a) == Some(x) && ProduceValue(v, col, b) == Some(y)
    ensures |x| == |y|
  {
    hide ToString;
  }

  /** No two clients ever produce the same value of a sliced variable, wherever their cursors are. */
  lemma NoSharedValue(v: Variable, n: nat, col: nat, a: nat, b: nat, j: nat, k: nat)
    requires IsRange(v) && n > 0 && v.end - v.start >= n && a < n && b < n && a != b
    ensures SliceOf(v.start, v.end, n, a).Some? && SliceOf(v.start, v.end, n, b).Some?
    ensures var sa, sb := SliceOf(v.start, v.end, n, a).value, SliceOf(v.start, v.end, n, b).value;
            var x := ProduceValue(v, col, After(sa, sa.start, j));
            var y := ProduceValue(v, col, After(sb, sb.start, k));
            x.Some? && y.Some? && x != y
  {
    hide SliceOf;
    hide ProduceValue;
    SliceInRange(v.start, v.end, n, a);
    SliceInRange(v.start, v.end, n, b);
    var sa, sb := SliceOf(v.start, v.end, n, a).value, SliceOf(v.start, v.end, n, b).value;
    AfterInSlice(sa, sa.start, j);
    AfterInSlice(sb, sb.start, k);
    var ida, idb := After(sa, sa.start, j), After(sb, sb.start, k);
    EstimateIsExact(v, col, ida);
    EstimateIsExact(v, col, idb);
    if ProduceValue(v, col, ida) == ProduceValue(v, col, idb) {
      ValuesDistinct(v, col, ida, idb);
      SlicesDisjoint(v.start, v.end, n, a, b, ida);
    }
  }

  // Strings assembled from segments and values.

  ghost function Weave(segments: seq<string>, values: seq<string>, k: nat): string
    requires k <= |segments| && k <= |values|
  {
    if k == 0 then "" else Weave(segments, values, k - 1) + segments[k - 1] + values[k - 1]
  }

  ghost function TotalLength(strings: seq<string>): nat {
    if strings == [] then 0 else TotalLength(strings[..|strings| - 1]) + |strings[|strings| - 1]|
  }

  /** assemble_string, for the values of its variables. */
  method AssembleString(segments: seq<string>, values: seq<string>) returns (result: string)
    requires |segments| == |values| + 1
    ensures result == Weave(segments, values, |values|) + segments[|values|]
    ensures |result| == TotalLength(segments) + TotalLength(values)
  {
    result := "";
    for i := 0 to |values|
      invariant result == Weave(segments, values, i)
    {
      result := result + segments[i];
      result := result + values[i];
    }
    WeaveLength(segments, values, |values|);
    assert segments[..|segments| - 1] == segments[..|values|];
    assert values[..|values|] == values;
    result := result + segments[|segments| - 1];
  }

  lemma {:induction false} WeaveLength(segments: seq<string>, values: seq<string>, k: nat)
    requires k <= |segments| && k <= |values|
    ensures |Weave(segments, values, k)| == TotalLength(segments[..k]) + TotalLength(values[..k])
    decreases k
  {
    if k > 0 {
      WeaveLength(segments, values, k - 1);
      assert segments[..k][..k - 1] == segments[..k - 1];
      assert values[..k][..k - 1] == values[..k - 1];
    }
  }

  /** When the values have the same lengths, equal strings were assembled from equal values. */
  lemma {:induction false} WeaveInjective(segments: seq<string>, x: seq<string>, y: seq<string>, k: nat)
    requires |x| == |y| && k <= |segments| && k <= |x|
    requires forall i :: 0 <= i < k ==> |x[i]| == |y[i]|
    requires Weave(segments, x, k) == Weave(segments, y, k)
    ensures forall i :: 0 <= i < k ==> x[i] == y[i]
    decreases k
  {
    if k > 0 {
      var a, b := Weave(segments, x, k - 1), Weave(segments, y, k - 1);
      SameSuffix(a + segments[k - 1], x[k - 1], b + segments[k - 1], y[k - 1]);
      SameSuffix(a, segments[k - 1], b, segments[k - 1]);
      WeaveInjective(segments, x, y, k - 1);
    }
  }

  lemma SameSuffix(a: string, s: string, b: string, t: string)
    requires a + s == b + t && |s| == |t|
    ensures a == b && s == t
  {
    assert (a + s)[|a|..] == s && (a + s)[..|a|] == a;
    assert (b + t)[|b|..] == t && (b + t)[..|b|] == b;
  }

  /** Two requests assembled from one template of sliced variables differ whenever one of their ids does. */
  lemma RequestsDistinct(segments: seq<string>, variables: seq<Variable>, cols: seq<nat>,
                         a: seq<nat>, b: seq<nat>, x: seq<string>, y: seq<string>, at: nat)
    requires |segments| == |variables| + 1
    requires |variables| == |cols| == |a| == |b| == |x| == |y| && at < |a| && a[at] != b[at]
    requires forall i :: 0 <= i < |variables| ==> IsRange(variables[i])
    requires forall i :: 0 <= i < |variables| ==> ProduceValue(variables[i], cols[i], a[i]) == Some(x[i])
    requires forall i :: 0 <= i < |variables| ==> ProduceValue(variables[i], cols[i], b[i]) == Some(y[i])
    ensures Weave(segments, x, |x|) + segments[|x|] != Weave(segments, y, |y|) + segments[|y|]
  {
    hide ProduceValue;
    hide Weave;
    forall i | 0 <= i < |variables| ensures |x[i]| == |y[i]| {
      RangeValuesSameLength(variables[i], cols[i], a[i], b[i], x[i], y[i]);
    }
    var s, t := Weave(segments, x, |x|), Weave(segments, y, |y|);
    if s + segments[|x|] == t + segments[|y|] {
      SameSuffix(s, segments[|x|], t, segments[|y|]);
      WeaveInjective(segments, x, y, |x|);
      ValuesDistinct(variables[at], cols[at], a[at], b[at]);
    }
  }
}
