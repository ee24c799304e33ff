/** The least and the greatest element of a finite set of numbers. */
module FiniteSets {

  ghost predicate IsLeast(m: nat, s: set<nat>) {
    m in s && forall x :: x in s ==> m <= x
  }

  ghost predicate IsGreatest(m: nat, s: set<nat>) {
    m in s && forall x :: x in s ==> x <= m
  }

  lemma {:induction false} HasBounds(s: set<nat>) returns (least: nat, greatest: nat)
    requires s != {}
    ensures IsLeast(least, s) && IsGreatest(greatest, s)
    decreases |s|
  {
    var y :| y in s;
    var rest := s - {y};
    assert forall x :: x in s ==> x == y || x in rest;
    least, greatest := y, y;
    if rest != {} {
      var a, b := HasBounds(rest);
      least, greatest := if y < a then y else a, if b < y then y else b;
    }
  }

  lemma BoundsExist(s: set<nat>)
    requires s != {}
    ensures exists m :: IsLeast(m, s)
    ensures exists m :: IsGreatest(m, s)
  {
    var a, b := HasBounds(s);
  }

  /** *set.begin() */
  function Least(s: set<nat>): (m: nat)
    requires s != {}
    ensures IsLeast(m, s)
  {
    BoundsExist(s);
    var m :| m in s && forall x :: x in s ==> m <= x;
    m
  }

  /** *set.rbegin() */
  function Greatest(s: set<nat>): (m: nat)
    requires s != {}
    ensures IsGreatest(m, s)
  {
    BoundsExist(s);
    var m :| m in s && forall x :: x in s ==> x <= m;
    m
  }
}
