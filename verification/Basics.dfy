/** What several parts of the model share. */
module Basics {

  type Byte = b: int | 0 <= b < 256

  datatype Option<T> = None | Some(value: T)

  /** The connection of a client. */
  datatype ConnState = Idle | Connecting | Connected

  /** The number of values of a 64-bit word: the width of sizes and of unsigned counters. */
  const WORD_LIMIT := 0x1_0000_0000_0000_0000

  function Min(a: nat, b: nat): nat { if a < b then a else b }

  function Max(a: nat, b: nat): nat { if a < b then b else a }

  /** A number below the limit is its own remainder. */
  lemma Small(x: nat)
    requires x < WORD_LIMIT
    ensures x % WORD_LIMIT == x
  {
  }

  /** Sequences with the same beginning are equal if and only if the rest is. */
  lemma SamePrefix<T>(t: seq<T>, a: seq<T>, b: seq<T>)
    ensures t + a == t + b <==> a == b
  {
    assert (t + a)[|t|..] == a && (t + b)[|t|..] == b;
  }

  // Quotients and remainders.

  lemma ModPlus(a: nat, x: nat)
    requires x > 0
    ensures (a + x) % x == a % x
  {
    assert a + x == (a / x + 1) * x + a % x;
    ModUnique(a + x, x, a / x + 1, a % x);
  }

  lemma ModUnique(a: nat, x: nat, q: nat, r: nat)
    requires x > 0 && a == q * x + r && r < x
    ensures a % x == r && a / x == q
  {
    var d := a / x - q;
    assert a == a / x * x + a % x;
    assert d * x == r - a % x;
    assert d >= 1 ==> d * x >= x;
    assert d <= -1 ==> d * x <= -1 * x;
  }
}
