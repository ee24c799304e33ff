/** find_common_multiple: a number that every request count divides. */
module CommonMultiples {

  import opened Basics
  import opened FiniteSets

  // Divisibility and finite sets of numbers.

  predicate Divides(x: nat, y: nat)
    requires x > 0
  {
    y % x == 0
  }

  lemma DividesTimes(x: nat, k: nat)
    requires x > 0
    ensures Divides(x, x * k)
  {
    TimesMod(x, k);
  }

  lemma {:induction false} TimesMod(x: nat, k: nat)
    requires x > 0
    ensures (x * k) % x == 0
    decreases k
  {
    if k > 0 {
      TimesMod(x, k - 1);
      assert x * k == x * (k - 1) + x;
      ModPlus(x * (k - 1), x);
    } else {
      assert x * k == 0;
    }
  }

  lemma DividesTransitive(x: nat, y: nat, z: nat)
    requires x > 0 && y > 0 && Divides(x, y) && Divides(y, z)
    ensures Divides(x, z)
  {
    var a, b := y / x, z / y;
    assert z == y * b && y == x * a;
    assert z == x * (a * b);
    DividesTimes(x, a * b);
  }

  lemma DividesBigger(x: nat, y: nat)
    requires x > 0 && y > 0 && Divides(x, y)
    ensures x <= y
  {
  }

  ghost function Product(s: set<nat>): nat
    decreases |s|
  {
    if s == {} then 1 else
    var m := Least(s);
    m * Product(s - {m})
  }

  ghost predicate Positive(s: set<nat>) {
    forall x :: x in s ==> x > 0
  }

  lemma {:induction false} ProductDivisible(s: set<nat>, x: nat)
    requires Positive(s)
    ensures Product(s) > 0
    ensures x in s ==> Divides(x, Product(s))
    decreases |s|
  {
    if s != {} {
      var m := Least(s);
      var rest := s - {m};
      ProductDivisible(rest, x);
      assert Product(s) == m * Product(rest);
      assert m * Product(rest) > 0;
      if x == m {
        DividesTimes(m, Product(rest));
      } else if x in s {
        DividesTimes(Product(rest), m);
        assert Product(rest) * m == Product(s);
        DividesTransitive(x, Product(rest), Product(s));
      }
    }
  }

  lemma ProductOfTwo(a: nat, b: nat)
    requires a < b
    ensures Product({a, b}) == a * b
  {
    ProductOfOne(b);
    var s := {a, b};
    assert s - {a} == {b};
    assert forall x :: x in s ==> a <= x;
    ProductUnfold(s, a);
  }

  lemma ProductOfOne(b: nat)
    ensures Product({b}) == b
  {
    var s := {b};
    assert s - {b} == {};
    ProductUnfold(s, b);
  }

  lemma ProductUnfold(s: set<nat>, m: nat)
    requires m in s && forall x :: x in s ==> m <= x
    ensures Product(s) == m * Product(s - {m})
  {
  }

  // find_common_multiple.

  /** The values that divide no other value. */
  ghost function Kept(values: set<nat>): set<nat>
    requires Positive(values)
  {
    set x | x in values && !(exists y :: y in values && y != x && Divides(x, y))
  }

  ghost function CommonMultiple(values: set<nat>): nat
    requires Positive(values)
  {
    Product(Kept(values))
  }

  lemma KeptFacts(values: set<nat>, x: nat)
    requires Positive(values)
    ensures Kept(values) <= values
    ensures x in Kept(values) ==> forall y :: y in values && Divides(x, y) ==> y == x
  {
  }

  /** Every value divides a kept one. */
  lemma KeptMultiple(values: set<nat>, x: nat) returns (top: nat)
    requires Positive(values) && x in values
    ensures top in Kept(values) && Divides(x, top)
  {
    var multiples := set y | y in values && Divides(x, y);
    assert x % x == 0;
    assert x in multiples;
    top := Greatest(multiples);
    forall y | y in values && y != top && Divides(top, y) ensures false {
      DividesTransitive(x, top, y);
      assert y in multiples;
      DividesBigger(top, y);
    }
  }

  /** The product of the kept values is a multiple of every value. */
  lemma CommonMultipleDivisible(values: set<nat>, x: nat)
    requires Positive(values)
    ensures CommonMultiple(values) > 0
    ensures x in values ==> Divides(x, CommonMultiple(values))
  {
    ProductDivisible(Kept(values), x);
    if x in values {
      var top := KeptMultiple(values, x);
      ProductDivisible(Kept(values), top);
      DividesTransitive(x, top, CommonMultiple(values));
    }
  }

  ghost function ToSet(input: seq<nat>): set<nat> {
    set x | x in input
  }

  /** find_common_multiple, with the multiplication of 64-bit numbers. */
  method FindCommonMultiple(input: seq<nat>) returns (result: nat)
    requires Positive(ToSet(input))
    ensures result == CommonMultiple(ToSet(input)) % WORD_LIMIT
  {
    var unique: set<nat> := {};
    for i := 0 to |input|
      invariant unique == ToSet(input[..i])
    {
      assert input[..i + 1] == input[..i] + [input[i]];
      unique := unique + {input[i]};
    }
    assert input[..|input|] == input;
    var kept := KeepMaximal(unique);
    result := MultiplyAll(kept);
  }

  /** find_multiple, as the loop below asks it. */
  predicate IsMultiple(v: nat, val: nat)
    requires val > 0
  {
    v / val >= 1 && v % val == 0
  }

  lemma IsMultipleIff(v: nat, val: nat)
    requires val > 0 && v > 0
    ensures IsMultiple(v, val) <==> Divides(val, v)
  {
    if v < val {
      assert v % val == v;
    } else {
      DivAtLeastOne(val, v);
    }
  }

  lemma DivAtLeastOne(x: nat, y: nat)
    requires 0 < x <= y
    ensures y / x >= 1
  {
  }

  /** Going down from the largest value, the kept ones decide about the next. */
  lemma KeepStep(unique: set<nat>, rest: set<nat>, val: nat)
    requires Positive(unique) && rest <= unique
    requires val in rest && forall x :: x in rest ==> x <= val
    ensures val in Kept(unique) <==> !(exists v :: v in Kept(unique) - rest && IsMultiple(v, val))
  {
    hide Kept;
    hide Divides;
    hide IsMultiple;
    var top := KeptMultiple(unique, val);
    KeptFacts(unique, val);
    DividesBigger(val, top);
    IsMultipleIff(top, val);
    assert top != val ==> top in Kept(unique) - rest;
    forall v | v in Kept(unique) - rest ensures IsMultiple(v, val) <==> Divides(val, v) {
      IsMultipleIff(v, val);
    }
  }

  /** The second loop: in descending order, a value is kept unless a kept one is a multiple of it. */
  method KeepMaximal(unique: set<nat>) returns (kept: set<nat>)
    requires Positive(unique)
    ensures kept == Kept(unique)
  {
    kept := {};
    var rest := unique;
    KeptFacts(unique, 0);
    hide Kept;
    hide IsMultiple;
    while rest != {}
      invariant rest <= unique && kept == Kept(unique) - rest
      decreases |rest|
    {
      var val := Greatest(rest);
      KeepStep(unique, rest, val);
      if !(exists v :: v in kept && IsMultiple(v, val)) {
        kept := kept + {val};
      }
      rest := rest - {val};
    }
  }

  /** The last loop, in ascending order. */
  method MultiplyAll(values: set<nat>) returns (result: nat)
    ensures result == Product(values) % WORD_LIMIT
  {
    result := 1;
    var rest := values;
    hide Product;
    while rest != {}
      invariant result < WORD_LIMIT && (result * Product(rest)) % WORD_LIMIT == Product(values) % WORD_LIMIT
      decreases |rest|
    {
      var val := Least(rest);
      ProductUnfold(rest, val);
      TakeFactor(result, val, Product(rest - {val}));
      result := (result * val) % WORD_LIMIT;
      rest := rest - {val};
    }
  }

  lemma TakeFactor(result: nat, val: nat, later: nat)
    ensures result * (val * later) % WORD_LIMIT == (result * val) % WORD_LIMIT * later % WORD_LIMIT
  {
    assert result * (val * later) == (result * val) * later;
    ModTimes(result * val, later, WORD_LIMIT);
  }

  lemma ModTimes(a: nat, b: nat, m: nat)
    requires m > 0
    ensures (a % m * b) % m == (a * b) % m
  {
    var q := a / m;
    assert a == q * m + a % m;
    assert a * b == (a % m) * b + m * (q * b) by {
      calc {
        a * b;
        (q * m + a % m) * b;
        (q * m) * b + (a % m) * b;
        m * (q * b) + (a % m) * b;
      }
    }
    AddMultiple((a % m) * b, q * b, m);
  }

  lemma {:induction false} AddMultiple(a: nat, k: nat, m: nat)
    requires m > 0
    ensures (a + m * k) % m == a % m
    decreases k
  {
    if k > 0 {
      AddMultiple(a, k - 1, m);
      assert a + m * k == (a + m * (k - 1)) + m;
      ModPlus(a + m * (k - 1), m);
    } else {
      assert m * k == 0;
    }
  }
}
