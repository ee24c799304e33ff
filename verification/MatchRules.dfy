/** The orders on match rules and on requests, by which the mock server keeps its services sorted. */
module MatchRules {

  datatype MatchType = EqualsTo | StartsWith | EndsWith | Contains | RegexMatch

  /** A rule is on a header, or, if the header name is empty, on the payload. */
  datatype Rule = Rule(matchType: MatchType, header: string, pointer: string, text: string)

  // ---------------------------------------------------------------------------------------
  // Orders
  // ---------------------------------------------------------------------------------------

  ghost predicate StrictWeakOrder<T(!new)>(lt: (T, T) -> bool) {
    && (forall a :: !lt(a, a))
    && (forall a, b, c :: lt(a, b) && lt(b, c) ==> lt(a, c))
    && (forall a, b, c :: !lt(a, b) && !lt(b, a) && !lt(b, c) && !lt(c, b) ==> !lt(a, c) && !lt(c, a))
  }

  /** Lexicographic comparison of strings. */
  predicate Less(a: string, b: string) {
    if b == [] then false
    else if a == [] then true
    else a[0] < b[0] || (a[0] == b[0] && Less(a[1..], b[1..]))
  }

  lemma {:induction false} LessTotal(a: string, b: string)
    ensures Less(a, b) || Less(b, a) <==> a != b
    ensures !(Less(a, b) && Less(b, a))
    decreases |a|
  {
    if a != [] && b != [] {
      LessTotal(a[1..], b[1..]);
      assert a == [a[0]] + a[1..] && b == [b[0]] + b[1..];
    }
  }

  lemma {:induction false} LessTransitive(a: string, b: string, c: string)
    requires Less(a, b) && Less(b, c)
    ensures Less(a, c)
    decreases |a|
  {
    if a != [] {
      if a[0] == b[0] == c[0] {
        LessTransitive(a[1..], b[1..], c[1..]);
      }
    }
  }

  /** What lexicographic means: the first place where the texts differ decides. */
  lemma {:induction false} LessIff(a: string, b: string)
    ensures Less(a, b) <==> exists n :: FirstDifference(a, b, n) && (n == |a| || (n < |b| && a[n] < b[n]))
    decreases |a|
  {
    if a != [] && b != [] && a[0] == b[0] {
      LessIff(a[1..], b[1..]);
      forall n: int
        ensures FirstDifference(a[1..], b[1..], n) <==> n >= 0 && FirstDifference(a, b, n + 1)
      {
        DifferenceAfter(a, b, n);
      }
      if n :| FirstDifference(a, b, n) {
        assert n > 0 && FirstDifference(a[1..], b[1..], n - 1);
      }
    } else {
      assert FirstDifference(a, b, 0) <==> a != b;
    }
  }

  ghost predicate FirstDifference(a: string, b: string, n: int) {
    && 0 <= n <= |a| && n <= |b| && a[..n] == b[..n]
    && (n == |a| || n == |b| || a[n] != b[n]) && (n < |a| || n < |b|)
  }

  lemma DifferenceAfter(a: string, b: string, n: int)
    requires a != [] && b != [] && a[0] == b[0]
    ensures FirstDifference(a[1..], b[1..], n) <==> n >= 0 && FirstDifference(a, b, n + 1)
  {
    if 0 <= n < |a| && n < |b| {
      assert a[..n + 1] == [a[0]] + a[1..][..n] && b[..n + 1] == [b[0]] + b[1..][..n];
    }
  }

  // ---------------------------------------------------------------------------------------
  // Match_Rule::operator<
  // ---------------------------------------------------------------------------------------

  /** std::to_string of the enumerator. */
  function TypeDigit(t: MatchType): string {
    match t
    case EqualsTo => "0"
    case StartsWith => "1"
    case EndsWith => "2"
    case Contains => "3"
    case RegexMatch => "4"
  }

  /** The fields are compared as one string, without separators. */
  function Key(r: Rule): string {
    TypeDigit(r.matchType) + r.header + r.pointer + r.text
  }

  predicate RuleLess(a: Rule, b: Rule) {
    if a.header != [] && b.header == [] then false
    else if a.header == [] && b.header != [] then true
    else if a.matchType == EqualsTo && b.matchType != EqualsTo then false
    else if b.matchType == EqualsTo && a.matchType != EqualsTo then true
    else Less(Key(a), Key(b))
  }

  /** What is compared before the key: header rules above payload rules, equality above the rest. */
  function Rank(r: Rule): nat {
    (if r.header != [] then 2 else 0) + (if r.matchType == EqualsTo then 1 else 0)
  }

  predicate Equivalent(a: Rule, b: Rule) {
    !RuleLess(a, b) && !RuleLess(b, a)
  }

  /** Two rules are equivalent exactly when their ranks and their keys agree. */
  lemma EquivalentIff(a: Rule, b: Rule)
    ensures Equivalent(a, b) <==> Rank(a) == Rank(b) && Key(a) == Key(b)
  {
    hide Less;
    hide Key;
    LessTotal(Key(a), Key(b));
  }

  /** The order has a direction: a rule of lower rank is smaller, and among rules of one rank the key decides. */
  lemma RuleLessIff(a: Rule, b: Rule)
    ensures RuleLess(a, b) <==> Rank(a) < Rank(b) || (Rank(a) == Rank(b) && Less(Key(a), Key(b)))
  {
    hide Less;
    hide Key;
  }

  /** The place of a match type in the source's enumeration. */
  function Ordinal(t: MatchType): nat {
    match t
    case EqualsTo => 0
    case StartsWith => 1
    case EndsWith => 2
    case Contains => 3
    case RegexMatch => 4
  }

  /** Among rules of one rank the match type decides first. */
  lemma TypeDecides(a: Rule, b: Rule)
    requires Rank(a) == Rank(b) && Ordinal(a.matchType) < Ordinal(b.matchType)
    ensures RuleLess(a, b)
  {
    RuleLessIff(a, b);
    assert Key(a)[0] < Key(b)[0];
  }

  /** The key leaves nothing out: rules with header names of one length and pointers of one length are equivalent
      only if they are equal. */
  lemma KeyDecides(a: Rule, b: Rule)
    requires |a.header| == |b.header| && |a.pointer| == |b.pointer|
    ensures Equivalent(a, b) <==> a == b
  {
    EquivalentIff(a, b);
    if Key(a) == Key(b) {
      var n, m := 1 + |a.header|, 1 + |a.header| + |a.pointer|;
      assert Key(a)[0] == Key(b)[0];
      assert a.header == Key(a)[1..n] && b.header == Key(b)[1..n];
      assert a.pointer == Key(a)[n..m] && b.pointer == Key(b)[n..m];
      assert a.text == Key(a)[m..] && b.text == Key(b)[m..];
    }
  }

  lemma RuleTransitive(a: Rule, b: Rule, c: Rule)
    requires RuleLess(a, b) && RuleLess(b, c)
    ensures RuleLess(a, c)
  {
    hide Less;
    hide Key;
    if Rank(a) == Rank(b) == Rank(c) {
      LessTransitive(Key(a), Key(b), Key(c));
    }
  }

  lemma RuleOrder()
    ensures StrictWeakOrder(RuleLess)
  {
    hide RuleLess;
    hide Key;
    forall a: Rule
      ensures !RuleLess(a, a)
    {
      EquivalentIff(a, a);
    }
    forall a, b, c | RuleLess(a, b) && RuleLess(b, c)
      ensures RuleLess(a, c)
    {
      RuleTransitive(a, b, c);
    }
    forall a, b, c | !RuleLess(a, b) && !RuleLess(b, a) && !RuleLess(b, c) && !RuleLess(c, b)
      ensures !RuleLess(a, c) && !RuleLess(c, a)
    {
      EquivalentIff(a, b);
      EquivalentIff(b, c);
      EquivalentIff(a, c);
    }
  }

  /** Different rules can be equivalent: the key does not say where the header name ends. */
  lemma DifferentButEquivalent()
    ensures Equivalent(Rule(EqualsTo, "ab", "", "c"), Rule(EqualsTo, "a", "", "bc"))
  {
    EquivalentIff(Rule(EqualsTo, "ab", "", "c"), Rule(EqualsTo, "a", "", "bc"));
    assert Key(Rule(EqualsTo, "ab", "", "c")) == "0abc" == Key(Rule(EqualsTo, "a", "", "bc"));
  }

  // ---------------------------------------------------------------------------------------
  // H2Server_Request::operator<
  // ---------------------------------------------------------------------------------------

  /** Compares the first n rules of two lists from the last to the first. */
  predicate RulesLess(a: seq<Rule>, b: seq<Rule>, n: nat)
    requires n <= |a| && n <= |b|
  {
    if n == 0 then false
    else if RuleLess(a[n - 1], b[n - 1]) then true
    else if RuleLess(b[n - 1], a[n - 1]) then false
    else RulesLess(a, b, n - 1)
  }

  /** Fewer rules come first; then the greatest rules decide. */
  predicate RequestLess(a: seq<Rule>, b: seq<Rule>) {
    if |a| < |b| then true else if |a| > |b| then false else RulesLess(a, b, |a|)
  }

  /** The greatest rules that are not equivalent decide. */
  lemma {:induction false} RulesLessIff(a: seq<Rule>, b: seq<Rule>, n: nat)
    requires n <= |a| && n <= |b|
    ensures RulesLess(a, b, n) <==> exists i :: DecidedAt(a, b, n, i) && RuleLess(a[i], b[i])
  {
    hide RuleLess;
    if n > 0 {
      ThreeRules(a[n - 1], b[n - 1], a[n - 1]);
      RulesLessIff(a, b, n - 1);
      if Equivalent(a[n - 1], b[n - 1]) {
        assert forall i :: i != n - 1 ==> (DecidedAt(a, b, n - 1, i) <==> DecidedAt(a, b, n, i));
      } else {
        assert DecidedAt(a, b, n, n - 1);
        assert forall i :: DecidedAt(a, b, n, i) ==> i == n - 1;
      }
    }
  }

  ghost predicate DecidedAt(a: seq<Rule>, b: seq<Rule>, n: nat, i: int) {
    && 0 <= i < n <= |a| && n <= |b| && !Equivalent(a[i], b[i])
    && forall j :: i < j < n ==> Equivalent(a[j], b[j])
  }

  lemma {:induction false} RulesIrreflexive(a: seq<Rule>, n: nat)
    requires n <= |a|
    ensures !RulesLess(a, a, n)
  {
    hide RuleLess;
    if n > 0 {
      RuleOrder();
      RulesIrreflexive(a, n - 1);
    }
  }

  lemma {:induction false} RulesTransitive(a: seq<Rule>, b: seq<Rule>, c: seq<Rule>, n: nat)
    requires n <= |a| && n <= |b| && n <= |c|
    ensures RulesLess(a, b, n) && RulesLess(b, c, n) ==> RulesLess(a, c, n)
    ensures !RulesLess(a, b, n) && !RulesLess(b, a, n) && !RulesLess(b, c, n) && !RulesLess(c, b, n)
            ==> !RulesLess(a, c, n) && !RulesLess(c, a, n)
  {
    hide RuleLess;
    if n > 0 {
      var x, y, z := a[n - 1], b[n - 1], c[n - 1];
      RulesTransitive(a, b, c, n - 1);
      ThreeRules(x, y, z);
    }
  }

  /** What a strict weak order says of three rules. */
  lemma ThreeRules(x: Rule, y: Rule, z: Rule)
    ensures RuleLess(x, y) && !RuleLess(z, y) ==> RuleLess(x, z)
    ensures !RuleLess(y, x) && RuleLess(y, z) ==> RuleLess(x, z)
    ensures Equivalent(x, y) && Equivalent(y, z) ==> Equivalent(x, z)
    ensures !(RuleLess(x, y) && RuleLess(y, x)) && !(RuleLess(y, z) && RuleLess(z, y)) && !(RuleLess(x, z) && RuleLess(z, x))
  {
    hide RuleLess;
    RuleOrder();
    assert Equivalent(x, y) || RuleLess(x, y) || RuleLess(y, x);
    assert Equivalent(y, z) || RuleLess(y, z) || RuleLess(z, y);
    assert Equivalent(x, z) || RuleLess(x, z) || RuleLess(z, x);
  }

  lemma RequestOrder()
    ensures StrictWeakOrder(RequestLess)
  {
    hide RulesLess;
    forall a: seq<Rule>
      ensures !RequestLess(a, a)
    {
      RulesIrreflexive(a, |a|);
    }
    forall a, b, c | RequestLess(a, b) && RequestLess(b, c)
      ensures RequestLess(a, c)
    {
      if |a| == |b| == |c| {
        RulesTransitive(a, b, c, |a|);
      }
    }
    forall a, b, c | !RequestLess(a, b) && !RequestLess(b, a) && !RequestLess(b, c) && !RequestLess(c, b)
      ensures !RequestLess(a, c) && !RequestLess(c, a)
    {
      RulesTransitive(a, b, c, |a|);
    }
  }
}
