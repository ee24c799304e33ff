/** Base64 (section 4 of RFC 4648): the two encoders and the decoder.

    Shifts and masks of the source are written as division and remainder by powers of two.
 */
module Base64 {

  import opened Basics

  type Digit = d: int | 0 <= d < 64

  /** B64_CHARS. */
  function CharOf(d: Digit): char {
    if d < 26 then ('A' as int + d) as char
    else if d < 52 then ('a' as int + d - 26) as char
    else if d < 62 then ('0' as int + d - 52) as char
    else if d == 62 then '+'
    else '/'
  }

  /** INDEX_TABLE: -1 for the characters outside the alphabet, '=' among them. */
  function IndexOf(c: char): (i: int)
    ensures -1 <= i < 64
  {
    if 'A' <= c <= 'Z' then c as int - 'A' as int
    else if 'a' <= c <= 'z' then c as int - 'a' as int + 26
    else if '0' <= c <= '9' then c as int - '0' as int + 52
    else if c == '+' then 62
    else if c == '/' then 63
    else -1
  }

  /** The alphabet, as table 1 of RFC 4648 lists it. */
  lemma AlphabetIs(d: Digit)
    ensures d < 26 ==> CharOf(d) == "ABCDEFGHIJKLMNOPQRSTUVWXYZ"[d]
    ensures 26 <= d < 52 ==> CharOf(d) == "abcdefghijklmnopqrstuvwxyz"[d - 26]
    ensures 52 <= d < 62 ==> CharOf(d) == "0123456789"[d - 52]
    ensures 62 <= d ==> CharOf(d) == "+/"[d - 62]
  {
  }

  lemma TableInverse(d: Digit)
    ensures IndexOf(CharOf(d)) == d
  {
  }

  lemma TableInverseOther(c: char)
    requires IndexOf(c) != -1
    ensures CharOf(IndexOf(c)) == c
  {
  }

  // ---------------------------------------------------------------------------------------
  // Specification
  // ---------------------------------------------------------------------------------------

  function EncodeLength(n: nat): nat {
    (n + 2) / 3 * 4
  }

  /** The 24-bit group of three bytes. */
  function Group(a: int, b: int, c: int): (n: int)
    requires 0 <= a < 256 && 0 <= b < 256 && 0 <= c < 256
    ensures 0 <= n < 0x100_0000
  {
    a * 0x1_0000 + b * 0x100 + c
  }

  /** The 24-bit group of four digits. */
  function Join(a: int, b: int, c: int, d: int): (n: int)
    requires 0 <= a < 64 && 0 <= b < 64 && 0 <= c < 64 && 0 <= d < 64
    ensures 0 <= n < 0x100_0000
  {
    a * 0x4_0000 + b * 0x1000 + c * 64 + d
  }

  /** The four characters of a 24-bit group. */
  function Quad(n: int): (q: string)
    requires 0 <= n < 0x100_0000
    ensures |q| == 4
  {
    [CharOf(n / 0x4_0000), CharOf(n / 0x1000 % 64), CharOf(n / 64 % 64), CharOf(n % 64)]
  }

  function Encode(x: seq<Byte>): string {
    if x == [] then []
    else if |x| == 1 then Quad(Group(x[0], 0, 0))[..2] + "=="
    else if |x| == 2 then Quad(Group(x[0], x[1], 0))[..3] + "="
    else Quad(Group(x[0], x[1], x[2])) + Encode(x[3..])
  }

  datatype Result = Invalid | Valid(bytes: seq<Byte>)

  /** The bytes of a 24-bit group. */
  function Bytes(n: int): (b: seq<Byte>)
    requires 0 <= n < 0x100_0000
    ensures |b| == 3
  {
    [n / 0x1_0000, n / 0x100 % 0x100, n % 0x100]
  }

  /** Decodes four characters; padding is only accepted at the end. */
  function DecodeQuad(q: string, atEnd: bool): (r: Result)
    requires |q| == 4
    ensures r.Valid? ==> 1 <= |r.bytes| <= 3
  {
    var a, b, c, d := IndexOf(q[0]), IndexOf(q[1]), IndexOf(q[2]), IndexOf(q[3]);
    if a == -1 || b == -1 then Invalid
    else if c == -1 then
      if q[2] == '=' && q[3] == '=' && atEnd then Valid(Bytes(Join(a, b, 0, 0))[..1]) else Invalid
    else if d == -1 then
      if q[3] == '=' && atEnd then Valid(Bytes(Join(a, b, c, 0))[..2]) else Invalid
    else Valid(Bytes(Join(a, b, c, d)))
  }

  function Then(head: Result, tail: Result): Result {
    if head.Valid? && tail.Valid? then Valid(head.bytes + tail.bytes) else Invalid
  }

  lemma Multiple(n: nat)
    requires 0 < n && n % 4 == 0
    ensures n >= 4 && (n - 4) % 4 == 0
  {
  }

  /** The first invalid group makes the whole input invalid. */
  function Decode(s: string): (r: Result)
    requires |s| % 4 == 0
    decreases |s|
  {
    if s == [] then Valid([])
    else
      assert |s| >= 4 && |s[4..]| % 4 == 0 by { Multiple(|s|); }
      Then(DecodeQuad(s[..4], |s| == 4), Decode(s[4..]))
  }

  // ---------------------------------------------------------------------------------------
  // Round trips
  // ---------------------------------------------------------------------------------------

  /** Both encoders produce exactly `encode_length` characters. */
  lemma {:induction false} EncodedLength(x: seq<Byte>)
    ensures |Encode(x)| == EncodeLength(|x|)
    ensures |Encode(x)| % 4 == 0
  {
    EncodeUnfold(x);
    LengthUnfold(|x|);
    hide Encode;
    hide EncodeLength;
    if |x| >= 3 {
      EncodedLength(x[3..]);
      LengthUnfold(|x[3..]|);
    }
  }

  lemma EncodeUnfold(x: seq<Byte>)
    ensures |Encode(x)| == if x == [] then 0 else if |x| <= 3 then 4 else 4 + |Encode(x[3..])|
  {
    hide Quad;
    hide Group;
  }

  lemma LengthUnfold(n: nat)
    ensures EncodeLength(n) == if n == 0 then 0 else if n <= 3 then 4 else 4 + EncodeLength(n - 3)
    ensures EncodeLength(n) % 4 == 0
  {
  }

  /** At most three bytes for four characters. */
  lemma {:induction false} DecodedLength(s: string)
    requires |s| % 4 == 0
    ensures Decode(s).Valid? ==> |Decode(s).bytes| <= |s| / 4 * 3
    decreases |s|
  {
    hide DecodeQuad;
    if s != [] {
      DecodedLength(s[4..]);
      assert |s| / 4 == 1 + |s[4..]| / 4;
    }
  }

  lemma Digits(n: int)
    requires 0 <= n < 0x100_0000
    ensures Join(n / 0x4_0000, n / 0x1000 % 64, n / 64 % 64, n % 64) == n
  {
    var m := n / 64;
    var l := m / 64;
    assert n / 0x1000 == l && n / 0x4_0000 == l / 64;
  }

  lemma GroupBytes(a: int, b: int, c: int)
    requires 0 <= a < 256 && 0 <= b < 256 && 0 <= c < 256
    ensures var n := Group(a, b, c); n / 0x1_0000 == a && n / 0x100 % 0x100 == b && n % 0x100 == c
  {
    var n := Group(a, b, c);
    assert n / 0x100 == a * 0x100 + b;
  }

  lemma Triple(a: Byte, b: Byte, c: Byte)
    ensures Bytes(Group(a, b, c)) == [a, b, c]
  {
    hide Group;
    GroupBytes(a, b, c);
  }

  lemma QuadDigits(n: int)
    requires 0 <= n < 0x100_0000
    ensures var q := Quad(n);
            && IndexOf(q[0]) == n / 0x4_0000 && IndexOf(q[1]) == n / 0x1000 % 64
            && IndexOf(q[2]) == n / 64 % 64 && IndexOf(q[3]) == n % 64
  {
    TableInverse(n / 0x4_0000);
    TableInverse(n / 0x1000 % 64);
    TableInverse(n / 64 % 64);
    TableInverse(n % 64);
  }

  lemma QuadRoundTrip(a: Byte, b: Byte, c: Byte, atEnd: bool)
    ensures DecodeQuad(Quad(Group(a, b, c)), atEnd) == Valid([a, b, c])
  {
    hide Quad;
    hide IndexOf;
    hide Join;
    hide Bytes;
    QuadDigits(Group(a, b, c));
    Digits(Group(a, b, c));
    Triple(a, b, c);
  }

  lemma Multiple64(n: int, k: int)
    requires n == 64 * k
    ensures n % 64 == 0 && n / 64 == k
  {
  }

  /** The digits after the last byte are zero. */
  lemma PaddingDigits(a: Byte, b: Byte)
    ensures Group(a, 0, 0) / 64 % 64 == 0 && Group(a, 0, 0) % 64 == 0 && Group(a, b, 0) % 64 == 0
  {
    Multiple64(Group(a, 0, 0), 64 * (16 * a));
    Multiple64(64 * (16 * a), 16 * a);
    Multiple64(Group(a, b, 0), 1024 * a + 4 * b);
  }

  lemma OnePadded(a: Byte)
    ensures DecodeQuad(Quad(Group(a, 0, 0))[..2] + "==", true) == Valid([a])
  {
    hide Quad;
    hide Bytes;
    hide Group;
    hide Join;
    var n := Group(a, 0, 0);
    var q := Quad(n)[..2] + "==";
    assert q[0] == Quad(n)[0] && q[1] == Quad(n)[1];
    QuadDigits(n);
    Digits(n);
    Triple(a, 0, 0);
    PaddingDigits(a, 0);
    assert Bytes(n)[..1] == [a];
  }

  lemma TwoPadded(a: Byte, b: Byte)
    ensures DecodeQuad(Quad(Group(a, b, 0))[..3] + "=", true) == Valid([a, b])
  {
    hide Quad;
    hide Bytes;
    hide Group;
    hide Join;
    var n := Group(a, b, 0);
    var q := Quad(n)[..3] + "=";
    assert q[0] == Quad(n)[0] && q[1] == Quad(n)[1] && q[2] == Quad(n)[2];
    QuadDigits(n);
    Digits(n);
    Triple(a, b, 0);
    PaddingDigits(a, b);
    assert Bytes(n)[..2] == [a, b];
  }

  /** Decoding what was encoded gives the bytes back, for every byte string. */
  lemma {:induction false} RoundTrip(x: seq<Byte>)
    ensures |Encode(x)| % 4 == 0
    ensures Decode(Encode(x)) == Valid(x)
    decreases |x|
  {
    hide DecodeQuad;
    hide Quad;
    EncodedLength(x);
    if 1 <= |x| <= 2 {
      OnePadded(x[0]);
      TwoPadded(x[0], if |x| == 2 then x[1] else 0);
      var s := Encode(x);
      assert s[..4] == s && s[4..] == [] && x + [] == x;
    } else if |x| >= 3 {
      QuadRoundTrip(x[0], x[1], x[2], |x| == 3);
      RoundTrip(x[3..]);
      var s := Encode(x);
      assert s[..4] == Quad(Group(x[0], x[1], x[2])) && s[4..] == Encode(x[3..]);
      assert x == [x[0], x[1], x[2]] + x[3..];
    }
  }

  /** The unused low bits of the last digit before the padding are zero. */
  predicate PaddingBitsZero(s: string) {
    && (|s| >= 4 && s[|s| - 1] == '=' && s[|s| - 2] == '=' ==> IndexOf(s[|s| - 3]) % 16 == 0)
    && (|s| >= 4 && s[|s| - 1] == '=' && s[|s| - 2] != '=' ==> IndexOf(s[|s| - 2]) % 4 == 0)
  }

  lemma JoinDigits(a: int, b: int, c: int, d: int)
    requires 0 <= a < 64 && 0 <= b < 64 && 0 <= c < 64 && 0 <= d < 64
    ensures var n := Join(a, b, c, d);
            n / 0x4_0000 == a && n / 0x1000 % 64 == b && n / 64 % 64 == c && n % 64 == d
  {
    var n := Join(a, b, c, d);
    assert n / 64 == a * 0x1000 + b * 64 + c;
    assert n / 0x1000 == a * 64 + b;
  }

  lemma BytesGroup(n: int)
    requires 0 <= n < 0x100_0000
    ensures Group(n / 0x1_0000, n / 0x100 % 0x100, n % 0x100) == n
  {
    assert n / 0x100 / 0x100 == n / 0x1_0000;
  }

  /** A full group is re-encoded to itself. */
  lemma QuadBack(q: string, atEnd: bool)
    requires |q| == 4 && IndexOf(q[2]) != -1 && IndexOf(q[3]) != -1 && DecodeQuad(q, atEnd).Valid?
    ensures var b := DecodeQuad(q, atEnd).bytes; |b| == 3 && Quad(Group(b[0], b[1], b[2])) == q
  {
    hide Join;
    hide Group;
    hide CharOf;
    hide IndexOf;
    var n := Join(IndexOf(q[0]), IndexOf(q[1]), IndexOf(q[2]), IndexOf(q[3]));
    JoinDigits(IndexOf(q[0]), IndexOf(q[1]), IndexOf(q[2]), IndexOf(q[3]));
    BytesGroup(n);
    TableInverseOther(q[0]);
    TableInverseOther(q[1]);
    TableInverseOther(q[2]);
    TableInverseOther(q[3]);
  }

  /** The low bits of a digit that do not reach a whole byte are dropped. */
  lemma DroppedBits(a: int, b: int, c: int)
    requires 0 <= a < 64 && 0 <= b < 64 && 0 <= c < 64
    ensures Group(Join(a, b, 0, 0) / 0x1_0000, 0, 0) == Join(a, b - b % 16, 0, 0)
    ensures Group(Join(a, b, c, 0) / 0x1_0000, Join(a, b, c, 0) / 0x100 % 0x100, 0) == Join(a, b, c - c % 4, 0)
  {
    assert Join(a, b, 0, 0) / 0x1_0000 == 4 * a + b / 16;
    var n := Join(a, b, c, 0);
    assert n / 0x100 == 1024 * a + 16 * b + c / 4;
    BytesGroup(n);
    assert n % 0x100 == c % 4 * 64;
  }

  lemma DifferentDigits(d: Digit, e: Digit)
    requires d != e
    ensures CharOf(d) != CharOf(e)
  {
    TableInverse(d);
    TableInverse(e);
  }

  lemma OnePaddedBack(q: string)
    requires |q| == 4 && IndexOf(q[2]) == -1 && DecodeQuad(q, true).Valid?
    ensures Encode(DecodeQuad(q, true).bytes) == q <==> IndexOf(q[1]) % 16 == 0
  {
    hide Join;
    hide Group;
    hide CharOf;
    hide IndexOf;
    var a, b := IndexOf(q[0]), IndexOf(q[1]);
    DroppedBits(a, b, 0);
    JoinDigits(a, b - b % 16, 0, 0);
    TableInverseOther(q[0]);
    TableInverseOther(q[1]);
    if b % 16 != 0 {
      DifferentDigits(b, b - b % 16);
    }
    var e := Encode(DecodeQuad(q, true).bytes);
    assert e == [q[0], CharOf(b - b % 16), '=', '='];
    assert q == [q[0], q[1], '=', '='];
  }

  lemma TwoPaddedBack(q: string)
    requires |q| == 4 && IndexOf(q[2]) != -1 && IndexOf(q[3]) == -1 && DecodeQuad(q, true).Valid?
    ensures Encode(DecodeQuad(q, true).bytes) == q <==> IndexOf(q[2]) % 4 == 0
  {
    hide Join;
    hide Group;
    hide CharOf;
    hide IndexOf;
    var a, b, c := IndexOf(q[0]), IndexOf(q[1]), IndexOf(q[2]);
    DroppedBits(a, b, c);
    JoinDigits(a, b, c - c % 4, 0);
    TableInverseOther(q[0]);
    TableInverseOther(q[1]);
    TableInverseOther(q[2]);
    if c % 4 != 0 {
      DifferentDigits(c, c - c % 4);
    }
    var e := Encode(DecodeQuad(q, true).bytes);
    assert e == [q[0], q[1], CharOf(c - c % 4), '='];
    assert q == [q[0], q[1], q[2], '='];
  }

  /** Encoding what was decoded gives the text back if and only if its padding bits are zero:
      the decoder accepts other texts too. */
  lemma {:induction false} ReverseRoundTripIff(s: string)
    requires |s| % 4 == 0 && Decode(s).Valid?
    ensures Encode(Decode(s).bytes) == s <==> PaddingBitsZero(s)
    decreases |s|
  {
    hide DecodeQuad;
    hide Quad;
    hide Group;
    if s != [] {
      Multiple(|s|);
      var q, t := s[..4], s[4..];
      var head := DecodeQuad(q, |s| == 4);
      assert s == q + t;
      QuadShape(q, |s| == 4);
      if IndexOf(q[2]) == -1 {
        assert q == s && head.bytes + [] == head.bytes;
        OnePaddedBack(q);
      } else if IndexOf(q[3]) == -1 {
        assert q == s && head.bytes + [] == head.bytes;
        TwoPaddedBack(q);
      } else {
        QuadBack(q, |s| == 4);
        ReverseRoundTripIff(t);
        var x := Decode(s).bytes;
        assert x[3..] == Decode(t).bytes && x[..3] == head.bytes;
        assert Encode(x) == q + Encode(x[3..]);
        SamePrefix(q, Encode(x[3..]), t);
        assert PaddingBitsZero(s) <==> PaddingBitsZero(t);
      }
    }
  }

  lemma QuadShape(q: string, atEnd: bool)
    requires |q| == 4 && DecodeQuad(q, atEnd).Valid?
    ensures IndexOf(q[2]) == -1 ==> q[2] == '=' && q[3] == '=' && atEnd
    ensures IndexOf(q[2]) != -1 && IndexOf(q[3]) == -1 ==> q[2] != '=' && q[3] == '=' && atEnd
    ensures IndexOf(q[2]) != -1 && IndexOf(q[3]) != -1 ==> q[3] != '='
  {
  }

  // ---------------------------------------------------------------------------------------
  // The code itself
  // ---------------------------------------------------------------------------------------

  /** Writes the characters at the cursor. */
  method Put(out: array<char>, p: nat, q: string) returns (p': nat)
    requires p + |q| <= out.Length
    modifies out
    ensures p' == p + |q| && out[..p'] == old(out[..p]) + q
  {
    forall i | 0 <= i < |q| {
      out[p + i] := q[i];
    }
    p' := p + |q|;
  }

  lemma EncodeTriple(x: seq<Byte>, first: nat, done: string)
    requires first + 3 <= |x|
    ensures done + Encode(x[first..])
            == done + Quad(Group(x[first], x[first + 1], x[first + 2])) + Encode(x[first + 3..])
    ensures |Encode(x[first..])| == 4 + |Encode(x[first + 3..])|
  {
    hide Quad;
    hide Group;
    assert x[first..][3..] == x[first + 3..];
  }

  /** The encoder that writes through an output iterator. */
  method EncodeTo(x: seq<Byte>, out: array<char>) returns (p: nat)
    requires out.Length >= EncodeLength(|x|)
    modifies out
    ensures p == EncodeLength(|x|) && out[..p] == Encode(x)
  {
    hide Encode;
    hide Quad;
    hide Group;
    p := 0;
    EncodedLength(x);
    if |x| == 0 {
      return;
    }
    var first := 0;
    var r := |x| % 3;
    var j := |x| - r;
    assert x[0..] == x && out[..0] + Encode(x) == Encode(x);
    ghost var k, n := 0, |x| / 3;
    while first != j
      invariant first == 3 * k && j == 3 * n && k <= n
      invariant p + |Encode(x[first..])| == EncodeLength(|x|)
      invariant out[..p] + Encode(x[first..]) == Encode(x)
      decreases n - k
    {
      EncodeTriple(x, first, out[..p]);
      p := Put(out, p, Quad(Group(x[first], x[first + 1], x[first + 2])));
      first, k := first + 3, k + 1;
    }
    p := EncodeTail(x, first, out, p);
  }

  /** The last one or two bytes, padded. */
  method EncodeTail(x: seq<Byte>, first: nat, out: array<char>, p0: nat) returns (p: nat)
    requires first <= |x| <= first + 2 && p0 + |Encode(x[first..])| <= out.Length
    modifies out
    ensures p == p0 + |Encode(x[first..])| && out[..p] == old(out[..p0]) + Encode(x[first..])
  {
    hide Encode;
    hide Quad;
    hide Group;
    p := p0;
    EncodeRest(x[first..]);
    if |x| - first == 2 {
      p := Put(out, p, Quad(Group(x[first], x[first + 1], 0))[..3] + "=");
    } else if |x| - first == 1 {
      p := Put(out, p, Quad(Group(x[first], 0, 0))[..2] + "==");
    }
  }

  lemma EncodeRest(x: seq<Byte>)
    ensures |x| == 0 ==> Encode(x) == []
    ensures |x| == 1 ==> Encode(x) == Quad(Group(x[0], 0, 0))[..2] + "=="
    ensures |x| == 2 ==> Encode(x) == Quad(Group(x[0], x[1], 0))[..3] + "="
    ensures |x| > 2 ==> |Encode(x)| >= 4
  {
  }

  /** The encoder that returns a string of the length computed beforehand; its loop is the same. */
  method EncodeString(x: seq<Byte>) returns (res: string)
    ensures res == Encode(x)
  {
    var buf := new char[(|x| + 2) / 3 * 4];
    var p := EncodeTo(x, buf);
    res := buf[..p];
  }

  /** One group of the decoder: how it ends, and its bits as far as they were read. */
  datatype Group4 = Full(n: int) | Bad | One(n: int) | Two(n: int)

  /** The inner loop over four characters, with its early exits. */
  method DecodeGroup(s: string, from: nat) returns (g: Group4)
    requires from + 4 <= |s|
    ensures (g.Full? || g.One? || g.Two?) ==> 0 <= g.n < 0x100_0000
    ensures DecodeQuad(s[from..from + 4], from + 4 == |s|)
            == match g
               case Full(n) => Valid(Bytes(n))
               case Bad => Invalid
               case One(n) => Valid(Bytes(n)[..1])
               case Two(n) => Valid(Bytes(n)[..2])
    ensures g.One? || g.Two? ==> from + 4 == |s|
  {
    hide Bytes;
    ghost var q := s[from..from + 4];
    var n, i := 0, 1;
    while i <= 4
      invariant 1 <= i <= 5
      invariant forall k :: 0 <= k < i - 1 ==> IndexOf(q[k]) != -1
      invariant n == (if i > 1 then IndexOf(q[0]) * 0x4_0000 else 0)
                     + (if i > 2 then IndexOf(q[1]) * 0x1000 else 0)
                     + (if i > 3 then IndexOf(q[2]) * 64 else 0)
                     + (if i > 4 then IndexOf(q[3]) else 0)
    {
      var first := from + i - 1;
      var idx := IndexOf(s[first]);
      if idx == -1 {
        if i <= 2 {
          return Bad;
        }
        if i == 3 {
          if s[first] == '=' && s[first + 1] == '=' && first + 2 == |s| {
            return One(n);
          }
          return Bad;
        }
        if s[first] == '=' && first + 1 == |s| {
          return Two(n);
        }
        return Bad;
      }
      n := n + idx * Shift(24 - i * 6);
      i := i + 1;
    }
    g := Full(n);
  }

  /** 1 << k for the shifts the decoder uses. */
  function Shift(k: int): int
    requires k in {0, 6, 12, 18}
  {
    if k == 0 then 1 else if k == 6 then 64 else if k == 12 then 0x1000 else 0x4_0000
  }

  method PutBytes(out: array<Byte>, p: nat, b: seq<Byte>) returns (p': nat)
    requires p + |b| <= out.Length
    modifies out
    ensures p' == p + |b| && out[..p'] == old(out[..p]) + b
  {
    forall i | 0 <= i < |b| {
      out[p + i] := b[i];
    }
    p' := p + |b|;
  }

  /** One more group in front of the rest. */
  lemma DecodeFrom(s: string, first: nat, done: seq<Byte>)
    requires |s| % 4 == 0 && first % 4 == 0 && first + 4 <= |s| && |s[first..]| % 4 == 0
    ensures |s[first + 4..]| % 4 == 0
    ensures var q := DecodeQuad(s[first..first + 4], first + 4 == |s|);
            Then(Valid(done), Decode(s[first..]))
            == if q.Valid? then Then(Valid(done + q.bytes), Decode(s[first + 4..])) else Invalid
  {
    hide DecodeQuad;
    var t := s[first..];
    Multiple(|t|);
    assert t[..4] == s[first..first + 4] && t[4..] == s[first + 4..];
    var q, r := DecodeQuad(t[..4], |t| == 4), Decode(t[4..]);
    if q.Valid? && r.Valid? {
      assert done + (q.bytes + r.bytes) == (done + q.bytes) + r.bytes;
    }
  }

  /** The decoder: the cursor after the last byte, or the start if the input is not valid.
      Every write stays inside len / 4 * 3 bytes. */
  method DecodeTo(s: string, out: array<Byte>) returns (p: nat)
    requires |s| % 4 == 0 && out.Length == |s| / 4 * 3
    modifies out
    ensures p <= out.Length
    ensures match Decode(s)
            case Valid(bytes) => out[..p] == bytes
            case Invalid => p == 0
  {
    hide Decode;
    hide DecodeQuad;
    hide Bytes;
    p := 0;
    var first := 0;
    assert s[0..] == s && out[..0] == [];
    IdentityThen(Decode(s));
    while first != |s|
      invariant 0 <= first <= |s| && first % 4 == 0 && |s[first..]| % 4 == 0
      invariant p == first / 4 * 3 && p <= out.Length
      invariant Then(Valid(out[..p]), Decode(s[first..])) == Decode(s)
    {
      Multiple(|s| - first);
      DecodeFrom(s, first, out[..p]);
      var g := DecodeGroup(s, first);
      assert p + 3 <= out.Length by { assert first / 4 < |s| / 4; }
      match g {
        case Bad => return 0;
        case One(n) =>
          p := PutBytes(out, p, Bytes(n)[..1]);
          DecodeNothing(out[..p]);
          assert s[first + 4..] == [];
          return;
        case Two(n) =>
          p := PutBytes(out, p, Bytes(n)[..2]);
          DecodeNothing(out[..p]);
          assert s[first + 4..] == [];
          return;
        case Full(n) => p := PutBytes(out, p, Bytes(n));
      }
      assert (first + 4) / 4 == first / 4 + 1;
      first := first + 4;
    }
    DecodeNothing(out[..p]);
    assert s[first..] == [];
  }

  lemma IdentityThen(r: Result)
    ensures Then(Valid([]), r) == r
  {
    if r.Valid? { assert [] + r.bytes == r.bytes; }
  }

  lemma DecodeNothing(done: seq<Byte>)
    ensures Then(Valid(done), Decode([])) == Valid(done)
  {
    assert done + [] == done;
  }

  /** The decoder that returns a string: empty for an invalid input or length. */
  method DecodeString(s: string) returns (res: seq<Byte>)
    ensures |s| % 4 != 0 ==> res == []
    ensures |s| % 4 == 0 ==> res == (if Decode(s).Valid? then Decode(s).bytes else [])
  {
    if |s| % 4 != 0 {
      return [];
    }
    var buf := new Byte[|s| / 4 * 3];
    var p := DecodeTo(s, buf);
    res := buf[..p];
  }
}
