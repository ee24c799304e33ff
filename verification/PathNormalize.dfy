/** normalize_path: percent-decoding of unreserved characters, then path_join.

    Decoding looks at each place once, so a percent sign that starts no triplet can be left in front of two
    digits that were decoded themselves.  Such an input has a hidden triplet; all others are decoded for good.
 */
module PathNormalize {

  import opened Basics
  import opened PathJoin

  predicate IsHex(c: char) {
    '0' <= c <= '9' || 'A' <= c <= 'F' || 'a' <= c <= 'f'
  }

  function HexValue(c: char): (v: nat)
    requires IsHex(c)
    ensures v < 16
  {
    if c <= '9' then c as int - '0' as int
    else if c <= 'Z' then c as int - 'A' as int + 10
    else c as int - 'a' as int + 10
  }

  function Upcase(c: char): char {
    if 'a' <= c <= 'z' then (c as int - 'a' as int + 'A' as int) as char else c
  }

  predicate Unreserved(c: char) {
    || 'A' <= c <= 'Z' || 'a' <= c <= 'z' || '0' <= c <= '9'
    || c == '-' || c == '.' || c == '_' || c == '~'
  }

  predicate IsTriplet(s: string) {
    |s| >= 3 && s[0] == '%' && IsHex(s[1]) && IsHex(s[2])
  }

  /** Decodes the triplets of unreserved characters and upper-cases the other triplets. */
  function Decode(s: string): (r: string)
    ensures |r| <= |s|
  {
    if s == [] then []
    else if IsTriplet(s) then
      var c := (16 * HexValue(s[1]) + HexValue(s[2])) as char;
      (if Unreserved(c) then [c] else ['%', Upcase(s[1]), Upcase(s[2])]) + Decode(s[3..])
    else [s[0]] + Decode(s[1..])
  }

  lemma {:induction false} DecodeWithoutPercent(s: string)
    requires |s| < 3 || '%' !in s
    ensures Decode(s) == s
  {
    if s != [] {
      DecodeWithoutPercent(s[1..]);
      assert s == [s[0]] + s[1..];
    }
  }

  /** A triplet that decoding changes: it stands for an unreserved character, or has a lower-case digit. */
  predicate Changes(s: string) {
    && IsTriplet(s)
    && (Unreserved((16 * HexValue(s[1]) + HexValue(s[2])) as char) || Upcase(s[1]) != s[1] || Upcase(s[2]) != s[2])
  }

  // ---------------------------------------------------------------------------------------
  // The code
  // ---------------------------------------------------------------------------------------

  /** Decodes into a buffer one longer than the input, which always suffices. */
  method DecodeBuffer(path: string) returns (result: array<char>, p: nat)
    ensures result.Length == |path| + 1 && p < result.Length && result[p] == '\0'
    ensures result[..p] == Decode(path)
  {
    hide Decode;
    result := new char[|path| + 1];
    var it := 0;
    p := 0;
    assert path[0..] == path && result[..0] + Decode(path) == Decode(path);
    while it + 2 < |path|
      invariant 0 <= p <= it <= |path|
      invariant result[..p] + Decode(path[it..]) == Decode(path)
    {
      ghost var done := result[..p];
      DecodeStep(path, it, done);
      if path[it] == '%' && IsHex(path[it + 1]) && IsHex(path[it + 2]) {
        var c := (16 * HexValue(path[it + 1]) + HexValue(path[it + 2])) as char;
        if Unreserved(c) {
          p := CopyTo(result, p, [c]);
        } else {
          p := CopyTo(result, p, ['%', Upcase(path[it + 1]), Upcase(path[it + 2])]);
        }
        it := it + 3;
        continue;
      }
      p := CopyTo(result, p, [path[it]]);
      it := it + 1;
    }
    DecodeWithoutPercent(path[it..]);
    p := CopyTo(result, p, path[it..]);
    ghost var done := result[..p];
    result[p] := '\0';
    assert result[..p] == done;
  }

  lemma DecodeStep(path: string, it: nat, done: string)
    requires it + 2 < |path|
    ensures var triplet := path[it] == '%' && IsHex(path[it + 1]) && IsHex(path[it + 2]);
            && (!triplet ==> done + Decode(path[it..]) == done + [path[it]] + Decode(path[it + 1..]))
            && (triplet ==>
                  var c := (16 * HexValue(path[it + 1]) + HexValue(path[it + 2])) as char;
                  var t := if Unreserved(c) then [c] else ['%', Upcase(path[it + 1]), Upcase(path[it + 2])];
                  done + Decode(path[it..]) == done + t + Decode(path[it + 3..]))
  {
    assert path[it..][1..] == path[it + 1..] && path[it..][3..] == path[it + 3..];
  }

  method Normalize(path: string, query: string) returns (res: array<char>, n: nat)
    ensures n < res.Length && res[n] == '\0'
    ensures res[..n] == Join([], [], Decode(path), query)
  {
    hide Join;
    if |path| < 3 || '%' !in path {
      DecodeWithoutPercent(path);
      res, n := JoinBuffer([], [], path, query);
      return;
    }
    var result, p := DecodeBuffer(path);
    res, n := JoinBuffer([], [], result[..p], query);
  }

  // ---------------------------------------------------------------------------------------
  // Decoding twice
  // ---------------------------------------------------------------------------------------

  /** The character that `s` begins with once it is decoded: that of a triplet, if it is unreserved. */
  function First(s: string): char
    requires s != []
  {
    if !IsTriplet(s) then s[0] else
    var c := (16 * HexValue(s[1]) + HexValue(s[2])) as char;
    if Unreserved(c) then c else '%'
  }

  function Rest(s: string): string
    requires s != []
  {
    if IsTriplet(s) then s[3..] else s[1..]
  }

  /** What `s` begins with, decoded, are the two digits of a triplet that decoding changes. */
  predicate Digits(s: string) {
    s != [] && Rest(s) != [] && Changes(['%', First(s), First(Rest(s))])
  }

  /** A percent sign that starts no triplet, but one that decoding changes once what follows is decoded. */
  ghost predicate Hides(s: string) {
    s != [] &&
    if IsTriplet(s) then Hides(s[3..]) else (s[0] == '%' && Digits(s[1..])) || Hides(s[1..])
  }

  lemma DecodeFirst(s: string)
    requires s != []
    ensures Decode(s) != [] && Decode(s)[0] == First(s)
    ensures IsHex(First(s)) ==> Decode(s) == [First(s)] + Decode(Rest(s))
  {
  }

  lemma DigitsIff(s: string)
    ensures Digits(s) <==> Changes(['%'] + Decode(s))
  {
    var d := Decode(s);
    if s != [] {
      DecodeFirst(s);
      if Rest(s) != [] {
        DecodeFirst(Rest(s));
      }
    }
    hide Decode;
    var t := ['%'] + d;
    if s != [] && IsHex(First(s)) {
      assert d == [First(s)] + Decode(Rest(s));
      if Rest(s) == [] {
        DecodeWithoutPercent([]);
        assert |t| == 2;
      } else {
        assert t[1] == First(s) && t[2] == Decode(Rest(s))[0] == First(Rest(s));
      }
    } else if s == [] {
      DecodeWithoutPercent([]);
    } else {
      assert t[1] == First(s);
    }
  }

  lemma NotTriplet(c: char, s: string)
    ensures c != '%' ==> Decode([c] + s) == [c] + Decode(s)
    ensures !IsTriplet([c] + s) ==> Decode([c] + s) == [c] + Decode(s)
  {
    assert ([c] + s)[1..] == s;
  }

  lemma DecodeTriplet(s: string)
    requires IsTriplet(s)
    ensures var c := (16 * HexValue(s[1]) + HexValue(s[2])) as char;
            Decode(s) == (if Unreserved(c) then [c] else ['%', Upcase(s[1]), Upcase(s[2])]) + Decode(s[3..])
  {
  }

  lemma UpcaseHex(c: char)
    requires IsHex(c)
    ensures IsHex(Upcase(c)) && HexValue(Upcase(c)) == HexValue(c) && Upcase(Upcase(c)) == Upcase(c)
  {
  }

  /** Decoding again changes nothing if and only if there is no hidden triplet. */
  lemma {:induction false} DecodeTwiceIff(s: string)
    ensures Decode(Decode(s)) == Decode(s) <==> !Hides(s)
    decreases |s|
  {
    hide Decode;
    if s == [] {
      DecodeWithoutPercent(s);
    } else if IsTriplet(s) {
      DecodeTwiceIff(s[3..]);
      DecodeTriplet(s);
      AfterTriplet(s);
    } else {
      DecodeTwiceIff(s[1..]);
      assert [s[0]] + s[1..] == s;
      NotTriplet(s[0], s[1..]);
      AfterChar(s);
      DigitsIff(s[1..]);
    }
  }

  lemma AfterTriplet(s: string)
    requires IsTriplet(s)
    ensures Decode(Decode(s)) == Decode(s) <==> Decode(Decode(s[3..])) == Decode(s[3..])
  {
    hide Decode;
    var d := Decode(s[3..]);
    var v := 16 * HexValue(s[1]) + HexValue(s[2]);
    DecodeTriplet(s);
    if Unreserved(v as char) {
      NotTriplet(v as char, d);
      SamePrefix([v as char], Decode(d), d);
    } else {
      UpcaseHex(s[1]);
      UpcaseHex(s[2]);
      var t := ['%', Upcase(s[1]), Upcase(s[2])];
      assert (t + d)[3..] == d;
      DecodeTriplet(t + d);
      SamePrefix(t, Decode(d), d);
    }
  }

  lemma AfterChar(s: string)
    requires s != [] && !IsTriplet(s) && Decode(s) == [s[0]] + Decode(s[1..])
    ensures var d := Decode(s[1..]);
            Decode(Decode(s)) == Decode(s) <==> !(s[0] == '%' && Changes(['%'] + d)) && Decode(d) == d
  {
    hide Decode;
    var d := Decode(s[1..]);
    var e := [s[0]] + d;
    NotTriplet(s[0], d);
    SamePrefix([s[0]], Decode(d), d);
    if IsTriplet(e) {
      DecodeTriplet(e);
      assert e[3..] == d[2..];
      TwoDigits(d);
      var v := (16 * HexValue(e[1]) + HexValue(e[2])) as char;
      if Unreserved(v) {
        assert |Decode(e)| <= 1 + |d[2..]| < |e|;
      } else {
        var t := ['%', Upcase(e[1]), Upcase(e[2])];
        assert e == e[..3] + e[3..];
        if t == e[..3] {
          SamePrefix(t, Decode(d[2..]), d[2..]);
        } else {
          assert Decode(e)[1] == t[1] && Decode(e)[2] == t[2];
        }
      }
    }
  }

  lemma TwoDigits(d: string)
    requires |d| >= 2 && IsHex(d[0]) && IsHex(d[1])
    ensures Decode(d) == d <==> Decode(d[2..]) == d[2..]
  {
    hide Decode;
    assert d == [d[0]] + ([d[1]] + d[2..]);
    NotTriplet(d[0], [d[1]] + d[2..]);
    NotTriplet(d[1], d[2..]);
    SamePrefix([d[1]], Decode(d[2..]), d[2..]);
    SamePrefix([d[0]], [d[1]] + Decode(d[2..]), [d[1]] + d[2..]);
  }

  ghost predicate EveryPercentIsTriplet(s: string) {
    forall i :: 0 <= i < |s| && s[i] == '%' ==> IsTriplet(s[i..])
  }

  /** In particular there is none if every percent sign starts a triplet. */
  lemma {:induction false} WellFormedHidesNothing(s: string)
    requires EveryPercentIsTriplet(s)
    ensures !Hides(s)
    decreases |s|
  {
    if s != [] {
      var n := if IsTriplet(s) then 3 else 1;
      assert s[0..] == s;
      forall i | 0 <= i < |s[n..]| && s[n..][i] == '%'
        ensures IsTriplet(s[n..][i..])
      {
        assert s[n + i] == '%' && s[n..][i..] == s[n + i..];
      }
      WellFormedHidesNothing(s[n..]);
    }
  }

  // ---------------------------------------------------------------------------------------
  // Joining what was decoded
  // ---------------------------------------------------------------------------------------

  ghost predicate Settled(s: string) {
    forall i :: 0 <= i < |s| ==> !Changes(s[i..])
  }

  /** A text is left alone by decoding if and only if no triplet in it is changed. */
  lemma {:induction false} SettledIff(s: string)
    ensures Decode(s) == s <==> Settled(s)
    decreases |s|
  {
    hide Decode;
    hide Changes;
    if s == [] {
      DecodeWithoutPercent(s);
    } else {
      SettledIff(s[1..]);
      SettledTail(s);
      assert s == [s[0]] + s[1..];
      NotTriplet(s[0], s[1..]);
      SamePrefix([s[0]], Decode(s[1..]), s[1..]);
      if IsTriplet(s) {
        TripletSettled(s);
      } else {
        NoChange(s);
      }
    }
  }

  lemma NoChange(s: string)
    requires !IsTriplet(s)
    ensures !Changes(s)
  {
  }

  lemma SettledTail(s: string)
    requires s != []
    ensures Settled(s) <==> !Changes(s) && Settled(s[1..])
  {
    hide Changes;
    assert s[0..] == s;
    assert forall i :: 0 <= i < |s| - 1 ==> s[1..][i..] == s[i + 1..];
    if !Changes(s) && Settled(s[1..]) {
      forall i | 0 <= i < |s|
        ensures !Changes(s[i..])
      {
        if i > 0 {
          assert s[i..] == s[1..][i - 1..];
        }
      }
    }
    if Settled(s) {
      forall i | 0 <= i < |s[1..]|
        ensures !Changes(s[1..][i..])
      {
        assert s[1..][i..] == s[i + 1..];
      }
    }
  }

  lemma TripletSettled(s: string)
    requires IsTriplet(s)
    ensures Decode(s) == s <==> !Changes(s) && Decode(s[1..]) == s[1..]
  {
    hide Decode;
    DecodeTriplet(s);
    assert s[1..][2..] == s[3..];
    TwoDigits(s[1..]);
    var c := (16 * HexValue(s[1]) + HexValue(s[2])) as char;
    if Unreserved(c) {
      assert |Decode(s)| < |s|;
    } else {
      var t := ['%', Upcase(s[1]), Upcase(s[2])];
      assert s == s[..3] + s[3..];
      if t == s[..3] {
        SamePrefix(t, Decode(s[3..]), s[3..]);
      } else {
        assert Decode(s)[1] == t[1] && Decode(s)[2] == t[2];
      }
    }
  }

  lemma SettledPrefix(s: string, r: string)
    requires Settled(s) && r <= s
    ensures Settled(r)
  {
    forall i | 0 <= i < |r|
      ensures !Changes(r[i..])
    {
      assert forall k :: 0 <= k < |r| - i ==> r[i..][k] == s[i..][k];
    }
  }

  lemma SettledSuffix(s: string, n: nat)
    requires Settled(s) && n <= |s|
    ensures Settled(s[n..])
  {
    forall i | 0 <= i < |s| - n
      ensures !Changes(s[n..][i..])
    {
      assert s[n..][i..] == s[n + i..];
    }
  }

  /** No triplet reaches over a slash. */
  lemma SettledJoin(a: string, b: string)
    requires Settled(a) && Settled(b) && EndsWithSlash(a)
    ensures Settled(a + b)
  {
    forall i | 0 <= i < |a + b|
      ensures !Changes((a + b)[i..])
    {
      var t := (a + b)[i..];
      if i < |a| {
        assert forall k :: 0 <= k < |a| - i ==> t[k] == a[i..][k];
        assert t[|a| - 1 - i] == '/';
      } else {
        assert t == b[i - |a|..];
      }
    }
  }

  lemma {:induction false} WalkSettled(rel: string, out: string)
    requires Settled(rel) && Settled(out) && Rooted(out)
    ensures Settled(Walk(rel, out))
    decreases |rel|
  {
    hide Settled;
    hide Head;
    hide Tail;
    hide EatFile;
    hide EatDir;
    if rel != [] {
      var h := Head(rel);
      HeadFacts(rel);
      TailFacts(rel);
      SettledPrefix(rel, h);
      SettledSuffix(rel, |rel| - |Tail(rel)|);
      if IsDotDot(h) {
        SettledPrefix(out, EatDir(out));
      } else if !IsDot(h) {
        SettledPrefix(out, EatFile(out));
        SettledJoin(EatFile(out), h);
      }
      WalkSettled(Tail(rel), Put(h, out));
    }
  }

  lemma SlashSettled()
    ensures Settled("/")
  {
  }

  /** If the input has no hidden triplet, the normalized path is decoded for good: decoding it again changes
      nothing, and shows no dot segment. */
  lemma NormalizedStaysNormal(path: string)
    requires !Hides(path)
    ensures var n := JoinPath([], Decode(path));
            Decode(n) == n && Rooted(n) && NoDotSegments(Decode(n))
  {
    hide Decode;
    hide Walk;
    hide Settled;
    var d := Decode(path);
    DecodeTwiceIff(path);
    SettledIff(d);
    SlashSettled();
    JoinHasNoDotSegments([], d);
    if d != [] {
      var rest := SkipSlashes(d);
      SkipSlashesFacts(d);
      SettledSuffix(d, |d| - |rest|);
      WalkSettled(rest, "/");
    }
    SettledIff(JoinPath([], d));
  }

  /** With hidden triplets it is not: "/%%32e%%32e/x" becomes "/%2e%2e/x", which decodes to "/../x". */
  lemma HiddenDotsSurvive()
    ensures Hides("/%%32e%%32e/x")
    ensures Decode("/%%32e%%32e/x") == "/%2e%2e/x"
    ensures JoinPath([], "/%2e%2e/x") == "/%2e%2e/x"
    ensures Decode("/%2e%2e/x") == "/../x" && !NoDotSegments("/../x")
  {
    hide Decode;
    hide Hides;
    hide JoinPath;
    DecodeHidden();
    DecodePlain();
    DecodeTwiceIff("/%%32e%%32e/x");
    assert "/../x" != "/%2e%2e/x";
    DotDotExample();
    CanonicalExample();
    hide Canonical;
    hide NoDotSegments;
    FixedPointIffCanonical("/%2e%2e/x");
    CleanIsJoin("/%2e%2e/x");
  }

  lemma CleanIsJoin(path: string)
    ensures Clean(path) == JoinPath([], path)
  {
  }

  lemma DotDotExample()
    ensures !NoDotSegments("/../x")
  {
    assert "/../x"[1..3] == "..";
    assert SegmentAt("/../x", 1, 3);
  }

  lemma CanonicalExample()
    ensures Canonical("/%2e%2e/x")
  {
    SlashNoDots();
    AppendNoDots("/", "%2e%2e");
    assert "/" + "%2e%2e" + "/" == "/%2e%2e/";
    AppendNoDots("/%2e%2e/", "x");
    assert "/%2e%2e/" + "x" == "/%2e%2e/x";
  }

  lemma Plain(c: char, s: string, t: string)
    requires c != '%' && s == [c] + t
    ensures Decode(s) == [c] + Decode(t)
  {
    NotTriplet(c, t);
  }

  lemma DecodeHidden()
    ensures Decode("/%%32e%%32e/x") == "/%2e%2e/x"
  {
    hide Decode;
    DecodeWithoutPercent("e/x");
    HiddenStep("e/x");
    Plain('e', "e%%32e/x", "%%32e/x");
    HiddenStep("e%%32e/x");
    Plain('/', "/%%32e%%32e/x", "%%32e%%32e/x");
    assert "%%32" + "e/x" == "%%32e/x" && "%%32" + "e%%32e/x" == "%%32e%%32e/x";
    assert "%2" + "e/x" == "%2e/x" && "e" + "%2e/x" == "e%2e/x";
    assert "%2" + "e%2e/x" == "%2e%2e/x" && "/" + "%2e%2e/x" == "/%2e%2e/x";
  }

  lemma HiddenStep(t: string)
    ensures Decode("%%32" + t) == "%2" + Decode(t)
  {
    hide Decode;
    var a, b := "%%32" + t, "%32" + t;
    assert a == ['%'] + b && !IsTriplet(a);
    NotTriplet('%', b);
    assert b[3..] == t && IsTriplet(b);
    DecodeTriplet(b);
    assert "%2" + Decode(t) == ['%'] + (['2'] + Decode(t));
  }

  lemma DecodePlain()
    ensures Decode("/%2e%2e/x") == "/../x"
  {
    hide Decode;
    DecodeWithoutPercent("/x");
    DotStep("/x");
    DotStep("%2e/x");
    Plain('/', "/%2e%2e/x", "%2e%2e/x");
    assert "%2e" + "/x" == "%2e/x" && "%2e" + "%2e/x" == "%2e%2e/x";
    assert "." + "/x" == "./x" && "." + "./x" == "../x" && "/" + "../x" == "/../x";
  }

  lemma DotStep(t: string)
    ensures Decode("%2e" + t) == "." + Decode(t)
  {
    hide Decode;
    var b := "%2e" + t;
    assert b[3..] == t && IsTriplet(b);
    DecodeTriplet(b);
  }
}
