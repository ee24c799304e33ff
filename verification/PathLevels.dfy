/** `path_join` against section 5.2.4 of RFC 3986, on every input.

    Both read the same segments, but the code drops the empty segments of a slash run behind a copied segment.
    The RFC then is that many levels deeper.  A ".." takes one level from both, except at the root of the code,
    where only the RFC still has a level to lose.  So the results are equal if and only if the gap closes.
 */
module PathLevels {

  import opened Basics
  import opened PathJoin
  import opened PathSlashes

  /** The number of slashes. */
  ghost function Levels(s: string): nat {
    if s == [] then 0 else Levels(s[..|s| - 1]) + (if s[|s| - 1] == '/' then 1 else 0)
  }

  lemma {:induction false} LevelsAppend(s: string, t: string)
    ensures Levels(s + t) == Levels(s) + Levels(t)
    decreases |t|
  {
    if t == [] {
      assert s + t == s;
    } else {
      assert (s + t)[..|s + t| - 1] == s + t[..|t| - 1];
      LevelsAppend(s, t[..|t| - 1]);
    }
  }

  lemma {:induction false} LevelsOfNoSlash(s: string)
    requires NoSlash(s)
    ensures Levels(s) == 0
    decreases |s|
  {
    if s != [] {
      LevelsOfNoSlash(s[..|s| - 1]);
    }
  }

  ghost predicate AllSlashes(s: string) {
    forall k :: 0 <= k < |s| ==> s[k] == '/'
  }

  lemma {:induction false} LevelsOfSlashes(s: string)
    requires AllSlashes(s)
    ensures Levels(s) == |s|
    decreases |s|
  {
    if s != [] {
      LevelsOfSlashes(s[..|s| - 1]);
    }
  }

  /** What both outputs are between segments. */
  ghost predicate Directory(s: string) {
    Rooted(s) && EndsWithSlash(s)
  }

  lemma LevelsOfDirectory(s: string)
    requires Directory(s)
    ensures Levels(s) > 0 && (Levels(s) == 1 <==> s == "/")
  {
    assert s == s[..|s| - 1] + "/";
    if |s| > 1 {
      var t := s[..|s| - 1];
      assert t == "/" + t[1..];
      LevelsAppend("/", t[1..]);
    } else {
      assert s == "/";
    }
  }

  /** ".." takes one level, but not the last. */
  lemma EatDirLevels(s: string)
    requires Directory(s)
    ensures Directory(EatDir(s))
    ensures Levels(EatDir(s)) == if Levels(s) == 1 then 1 else Levels(s) - 1
  {
    EatFileOfDir(s);
    LevelsOfDirectory(s);
    var t := s[..|s| - 1];
    assert s == t + "/";
    if |s| > 1 {
      DirLenPositive(t);
      var d := DirLen(t);
      assert t == t[..d] + t[d..];
      LevelsAppend(t[..d], t[d..]);
      LevelsOfNoSlash(t[d..]);
      LevelsAppend(t, "/");
    }
  }

  lemma HeadLevels(rel: string)
    requires rel != []
    ensures |Head(rel)| < |rel| ==> EndsWithSlash(Head(rel)) && Levels(Head(rel)) == 1
    ensures |Head(rel)| == |rel| && !EndsWithSlash(rel) ==> Levels(Head(rel)) == 0
    ensures |Head(rel)| == |rel| && EndsWithSlash(rel) ==> Levels(Head(rel)) == 1
  {
    HeadFacts(rel);
    var h := Head(rel);
    LevelsOfNoSlash(h[..|h| - 1]);
  }

  // ---------------------------------------------------------------------------------------
  // The RFC, segment by segment
  // ---------------------------------------------------------------------------------------

  /** The loop without the skipping of slashes. */
  ghost function Plain(rel: string, out: string): (r: string)
    requires out != []
    decreases |rel|
  {
    if rel == [] then out else Plain(rel[|Head(rel)|..], Put(Head(rel), out))
  }

  /** It is the RFC algorithm. */
  lemma {:induction false} PlainIsRfc(rel: string, out: string)
    requires out == [] || Rooted(out)
    ensures Plain(rel, out + "/") == RemoveDotSegments("/" + rel, out)
    decreases |rel|
  {
    hide DirLen;
    hide FindSlash;
    hide RemoveDotSegments;
    hide RfcStep;
    hide Put;
    if rel == [] {
      LastSlash(out);
      assert "/" + rel == "/";
    } else {
      var k := FindSlash(rel);
      if k == |rel| {
        assert rel[..k] == rel && rel[|Head(rel)|..] == [];
        LastSegment(rel, out);
      } else {
        var seg, x := rel[..k], rel[k + 1..];
        HeadWithSlash(rel);
        assert rel == (seg + "/") + x;
        RfcPutStep(seg, x, out);
        PutIsRfcPut(seg, out);
        Unfold("/" + rel, out, Buffers("/" + x, RfcPut(seg, out)));
        PlainIsRfc(x, RfcPut(seg, out));
      }
    }
  }

  lemma PlainOneSlash(s: string, out: string)
    requires Rooted(s) && EndsWithSlash(out)
    ensures SkipSlashes(s) == SkipSlashes(s[1..]) && Plain(s, out) == Plain(s[1..], out + "/")
  {
    hide EatDir;
    SlashHead(s);
    EatFileOfDir(out);
  }

  lemma NoSlashToSkip(s: string)
    requires !Rooted(s)
    ensures SkipSlashes(s) == s
  {
  }

  /** Slashes that the code skips are empty segments for the RFC. */
  lemma {:induction false} PlainKeepsSlashes(s: string, out: string)
    requires EndsWithSlash(out)
    ensures var n := |s| - |SkipSlashes(s)|;
            AllSlashes(s[..n]) && EndsWithSlash(out + s[..n]) && Plain(s, out) == Plain(SkipSlashes(s), out + s[..n])
    decreases |s|
  {
    hide Plain;
    hide SkipSlashes;
    if Rooted(s) {
      PlainOneSlash(s, out);
      PlainKeepsSlashes(s[1..], out + "/");
      var n := |s| - |SkipSlashes(s)|;
      assert s[..n] == "/" + s[1..][..n - 1];
      assert out + "/" + s[1..][..n - 1] == out + s[..n];
    } else {
      NoSlashToSkip(s);
      assert out + s[..0] == out;
    }
  }

  // ---------------------------------------------------------------------------------------
  // The gap
  // ---------------------------------------------------------------------------------------

  /** By how many levels the RFC is deeper at the end, when the code is `depth` levels below the root and the RFC
      `gap` more. */
  ghost function Gap(rel: string, depth: nat, gap: nat): nat
    decreases |rel|
  {
    if rel == [] then gap else
    var h, t := Head(rel), Tail(rel);
    if IsDot(h) then Gap(t, depth, gap)
    else if !IsDotDot(h) then Gap(t, depth + 1, gap + Dropped(rel))
    else if depth > 0 then Gap(t, depth - 1, gap)
    else Gap(t, 0, if gap > 0 then gap - 1 else 0)
  }

  /** The slashes that the code skips behind the first segment. */
  ghost function Dropped(rel: string): nat
    requires rel != []
  {
    TailAtMost(rel);
    |rel| - |Head(rel)| - |Tail(rel)|
  }

  ghost predicate Apart(a: string, b: string, gap: nat) {
    Directory(a) && Directory(b) && Levels(b) == Levels(a) + gap && (gap == 0 ==> a == b)
  }

  lemma PutFacts(h: string, out: string)
    requires EndsWithSlash(out)
    ensures IsDot(h) ==> Put(h, out) == out
    ensures IsDotDot(h) ==> Put(h, out) == EatDir(out)
    ensures !IsDot(h) && !IsDotDot(h) ==> Put(h, out) == out + h
  {
    EatFileOfDir(out);
  }

  lemma ApartAbove(a: string, b: string, gap: nat)
    requires Apart(a, b, gap)
    ensures Apart(EatDir(a), EatDir(b), if Levels(a) == 1 && gap > 0 then gap - 1 else gap)
  {
    LevelsOfDirectory(a);
    LevelsOfDirectory(b);
    EatDirLevels(a);
    EatDirLevels(b);
    LevelsOfDirectory(EatDir(a));
    LevelsOfDirectory(EatDir(b));
  }

  lemma ApartBelow(a: string, b: string, gap: nat, h: string, s: string)
    requires Apart(a, b, gap) && EndsWithSlash(h) && Levels(h) == 1 && AllSlashes(s)
    ensures Apart(a + h, b + h + s, gap + |s|) && Levels(a + h) == Levels(a) + 1
  {
    LevelsAppend(a, h);
    LevelsAppend(b, h);
    LevelsAppend(b + h, s);
    LevelsOfSlashes(s);
  }

  /** The code from `a` and the RFC from `b` end as far apart as the gap says. */
  ghost predicate EndsApart(rel: string, a: string, b: string, gap: nat)
    requires a != [] && b != [] && Levels(a) > 0
  {
    var end := Gap(rel, Levels(a) - 1, gap);
    Levels(Plain(rel, b)) == Levels(Walk(rel, a)) + end && (end == 0 ==> Plain(rel, b) == Walk(rel, a))
  }

  /** A last segment without a slash. */
  lemma GapAtEnd(rel: string, a: string, b: string, gap: nat)
    requires Apart(a, b, gap) && rel != [] && Levels(a) > 0
    requires |Head(rel)| == |rel| && !IsDot(rel) && !IsDotDot(rel)
    ensures EndsApart(rel, a, b, gap)
  {
    HeadFacts(rel);
    assert Head(rel) == rel;
    TailOfAll(rel);
    PutFacts(rel, a);
    PutFacts(rel, b);
    assert Dropped(rel) == 0;
    hide Put;
    hide Head;
    hide Tail;
    assert rel[|rel|..] == [];
    assert Gap(rel, Levels(a) - 1, gap) == Gap([], Levels(a), gap) == gap;
    assert Walk(rel, a) == Walk([], a + rel) == a + rel;
    assert Plain(rel, b) == Plain([], b + rel) == b + rel;
    LevelsAppend(a, rel);
    LevelsAppend(b, rel);
  }

  lemma StepDots(rel: string, a: string, b: string, gap: nat)
    requires rel != [] && IsDot(Head(rel)) && Apart(a, b, gap) && Levels(a) > 0
    requires EndsApart(Tail(rel), a, b, gap)
    ensures EndsApart(rel, a, b, gap)
  {
    PutFacts(Head(rel), a);
    PutFacts(Head(rel), b);
    assert Tail(rel) == rel[|Head(rel)|..];
    hide Put;
    hide Head;
    hide Tail;
    hide Levels;
    hide Apart;
  }

  lemma PlainUnfold(rel: string, out: string)
    requires out != [] && rel != []
    ensures Plain(rel, out) == Plain(rel[|Head(rel)|..], Put(Head(rel), out))
  {
    hide Put;
    hide Head;
  }

  lemma GapUp(rel: string, depth: nat, gap: nat, closer: nat)
    requires rel != [] && IsDotDot(Head(rel)) && closer == if depth == 0 && gap > 0 then gap - 1 else gap
    ensures Gap(rel, depth, gap) == Gap(Tail(rel), if depth == 0 then 0 else depth - 1, closer)
  {
    hide Head;
    hide Tail;
  }

  lemma TailOfDots(rel: string)
    requires rel != [] && (IsDot(Head(rel)) || IsDotDot(Head(rel)))
    ensures Tail(rel) == rel[|Head(rel)|..]
  {
  }

  lemma EndsFrom(rel: string, a: string, b: string, gap: nat, t: string, c: string, d: string, closer: nat)
    requires a != [] && b != [] && Levels(a) > 0 && c != [] && d != [] && Levels(c) > 0
    requires Walk(rel, a) == Walk(t, c) && Plain(rel, b) == Plain(t, d)
    requires Gap(rel, Levels(a) - 1, gap) == Gap(t, Levels(c) - 1, closer)
    requires EndsApart(t, c, d, closer)
    ensures EndsApart(rel, a, b, gap)
  {
    hide Walk;
    hide Plain;
    hide Gap;
    hide Levels;
  }

  lemma StepUp(rel: string, a: string, b: string, gap: nat, closer: nat)
    requires rel != [] && IsDotDot(Head(rel)) && Apart(a, b, gap) && Levels(a) > 0
    requires closer == if Levels(a) == 1 && gap > 0 then gap - 1 else gap
    requires Levels(EatDir(a)) == if Levels(a) == 1 then 1 else Levels(a) - 1
    requires EndsApart(Tail(rel), EatDir(a), EatDir(b), closer)
    ensures EndsApart(rel, a, b, gap)
  {
    hide *;
    ApartFacts(a, b, gap);
    PutFacts(Head(rel), a);
    PutFacts(Head(rel), b);
    TailOfDots(rel);
    WalkUnfold(rel, a);
    PlainUnfold(rel, b);
    GapUp(rel, Levels(a) - 1, gap, closer);
    EndsFrom(rel, a, b, gap, Tail(rel), EatDir(a), EatDir(b), closer);
  }

  lemma GapCopied(rel: string, depth: nat, gap: nat)
    requires rel != [] && !IsDot(Head(rel)) && !IsDotDot(Head(rel))
    ensures Gap(rel, depth, gap) == Gap(Tail(rel), depth + 1, gap + Dropped(rel))
  {
  }

  lemma PlainAfterHead(rel: string, out: string)
    requires rel != [] && !IsDot(Head(rel)) && !IsDotDot(Head(rel)) && EndsWithSlash(out)
    ensures var rest, n := rel[|Head(rel)|..], Dropped(rel);
            n <= |rest| && Plain(rest, out) == Plain(Tail(rel), out + rest[..n])
  {
    hide Plain;
    PlainKeepsSlashes(rel[|Head(rel)|..], out);
  }

  lemma AppendEnds(s: string, h: string)
    requires EndsWithSlash(h)
    ensures EndsWithSlash(s + h)
  {
  }

  lemma StepDown(rel: string, a: string, b: string, gap: nat)
    requires rel != [] && !IsDot(Head(rel)) && !IsDotDot(Head(rel)) && EndsWithSlash(Head(rel))
    requires Apart(a, b, gap) && Levels(a) > 0 && Levels(a + Head(rel)) == Levels(a) + 1
    requires Dropped(rel) <= |rel| - |Head(rel)|
    requires EndsApart(Tail(rel), a + Head(rel), b + Head(rel) + rel[|Head(rel)|..][..Dropped(rel)], gap + Dropped(rel))
    ensures EndsApart(rel, a, b, gap)
  {
    hide *;
    var h, t, n := Head(rel), Tail(rel), Dropped(rel);
    ApartFacts(a, b, gap);
    PutFacts(h, a);
    PutFacts(h, b);
    WalkUnfold(rel, a);
    PlainUnfold(rel, b);
    AppendEnds(b, h);
    PlainAfterHead(rel, b + h);
    GapCopied(rel, Levels(a) - 1, gap);
    EndsFrom(rel, a, b, gap, t, a + h, b + h + rel[|h|..][..n], gap + n);
  }

  lemma {:induction false} GapIs(rel: string, a: string, b: string, gap: nat)
    requires Apart(a, b, gap)
    ensures a != [] && b != [] && Levels(a) > 0 && EndsApart(rel, a, b, gap)
    decreases |rel|
  {
    hide *;
    ApartFacts(a, b, gap);
    if rel == [] {
      GapOfNothing(a, b, gap);
    } else {
      var h, t := Head(rel), Tail(rel);
      if IsDot(h) {
        GapIs(t, a, b, gap);
        StepDots(rel, a, b, gap);
      } else if IsDotDot(h) {
        ApartAbove(a, b, gap);
        var closer := if Levels(a) == 1 && gap > 0 then gap - 1 else gap;
        GapIs(t, EatDir(a), EatDir(b), closer);
        StepUp(rel, a, b, gap, closer);
      } else if EndsWithSlash(h) {
        DroppedAreSlashes(rel);
        var s := rel[|h|..][..Dropped(rel)];
        ApartBelow(a, b, gap, h, s);
        GapIs(t, a + h, b + h + s, gap + |s|);
        StepDown(rel, a, b, gap);
      } else {
        LastHead(rel);
        GapAtEnd(rel, a, b, gap);
      }
    }
  }

  lemma ApartFacts(a: string, b: string, gap: nat)
    requires Apart(a, b, gap)
    ensures a != [] && b != [] && Levels(a) > 0 && EndsWithSlash(a) && EndsWithSlash(b)
    ensures Levels(EatDir(a)) == if Levels(a) == 1 then 1 else Levels(a) - 1
  {
    LevelsOfDirectory(a);
    EatDirLevels(a);
  }

  lemma GapOfNothing(a: string, b: string, gap: nat)
    requires Apart(a, b, gap) && Levels(a) > 0
    ensures EndsApart([], a, b, gap)
  {
    assert Walk([], a) == a && Plain([], b) == b;
  }

  lemma LastHead(rel: string)
    requires rel != [] && !EndsWithSlash(Head(rel))
    ensures Head(rel) == rel
  {
    HeadFacts(rel);
  }

  lemma DroppedAreSlashes(rel: string)
    requires rel != [] && !IsDot(Head(rel)) && !IsDotDot(Head(rel))
    ensures Dropped(rel) <= |rel| - |Head(rel)| && AllSlashes(rel[|Head(rel)|..][..Dropped(rel)])
    ensures EndsWithSlash(Head(rel)) ==> Levels(Head(rel)) == 1
  {
    PlainKeepsSlashes(rel[|Head(rel)|..], "/");
    HeadLevels(rel);
    HeadFacts(rel);
  }

  // ---------------------------------------------------------------------------------------
  // When the result is that of the RFC
  // ---------------------------------------------------------------------------------------

  /** `rel` without the slash that makes it absolute. */
  ghost function BelowRoot(rel: string): string {
    if Rooted(rel) then rel[1..] else rel
  }

  /** The slashes that the code skips at the start of `rel`. */
  ghost function Leading(rel: string): nat {
    assert |SkipSlashes(rel)| <= |BelowRoot(rel)|;
    |BelowRoot(rel)| - |SkipSlashes(rel)|
  }

  /** Two outputs with the same levels are equal, and others are not. */
  lemma EqualIffLevels(rel: string, a: string, b: string, gap: nat)
    requires a != [] && b != [] && Levels(a) > 0 && EndsApart(rel, a, b, gap)
    ensures Walk(rel, a) == Plain(rel, b) <==> Gap(rel, Levels(a) - 1, gap) == 0
  {
  }

  /** Without a base, for every input: the result is that of the RFC if and only if the gap closes. */
  lemma JoinIsRfcExactly(rel: string)
    ensures JoinPath([], rel) == RemoveDotSegments(Absolute(rel), [])
            <==> Gap(SkipSlashes(rel), 0, Leading(rel)) == 0
  {
    hide *;
    var t, u, n := BelowRoot(rel), SkipSlashes(rel), Leading(rel);
    StartFacts(rel);
    PlainIsRfc(t, []);
    assert [] + "/" == "/";
    PlainKeepsSlashes(t, "/");
    ApartAtRoot(t[..n]);
    GapIs(u, "/", "/" + t[..n], n);
    EqualIffLevels(u, "/", "/" + t[..n], n);
  }

  lemma StartFacts(rel: string)
    ensures var t, u := BelowRoot(rel), SkipSlashes(rel);
            && u == SkipSlashes(t) && JoinPath([], rel) == Walk(u, "/") && Absolute(rel) == "/" + t
            && Leading(rel) == |t| - |u| && EndsWithSlash("/")
  {
    hide Walk;
    WalkNothing("/");
  }

  lemma ApartAtRoot(s: string)
    requires AllSlashes(s)
    ensures Levels("/") == 1 && Apart("/", "/" + s, |s|)
  {
    LevelsOfDirectory("/");
    LevelsAppend("/", s);
    LevelsOfSlashes(s);
  }

  /** With a base: if and only if the gap closes, and the file name of the base is dropped if it has one. */
  lemma MergeIsRfcExactly(base: string, rel: string)
    requires Rooted(base) && NoDotSegments(base) && rel != [] && !Rooted(rel)
    ensures Levels(base) > 0
    ensures JoinPath(base, rel) == RemoveDotSegments(Merge(base, rel), [])
            <==> (EndsWithSlash(base) || !OnlyDots(rel)) && Gap(rel, Levels(base) - 1, 0) == 0
  {
    var dir := EatFile(base);
    assert JoinPath(base, rel) == Walk(rel, base);
    LevelsOfBase(base);
    hide *;
    RfcOfMerge(base, rel);
    SameApart(dir);
    GapIs(rel, dir, dir, 0);
    EqualIffLevels(rel, dir, dir, 0);
    if OnlyDots(rel) {
      OnlyDotsKeeps(rel, base);
      OnlyDotsKeeps(rel, dir);
      OnlyDotsClose(rel, Levels(base) - 1);
      if EndsWithSlash(base) { EatFileOfDir(base); }
    } else {
      FileNameIsDropped(rel, base);
    }
  }

  lemma SameApart(dir: string)
    requires Directory(dir)
    ensures Apart(dir, dir, 0) && EndsWithSlash(dir)
  {
  }

  lemma RfcOfMerge(base: string, rel: string)
    requires Rooted(base) && NoDotSegments(base)
    ensures RemoveDotSegments(Merge(base, rel), []) == Plain(rel, EatFile(base))
  {
    hide RemoveDotSegments;
    hide Plain;
    var dir := EatFile(base);
    DirLenPositive(base);
    assert Merge(base, rel) == dir + rel;
    hide DirLen;
    var out := dir[..|dir| - 1];
    assert out + "/" == dir && [] + out == out;
    PrefixNoDots(base, dir);
    RfcCopiesPrefix(dir, rel, []);
    PlainIsRfc(rel, out);
  }

  lemma LevelsOfBase(base: string)
    requires Rooted(base)
    ensures var dir := EatFile(base);
            Directory(dir) && dir == base[..DirLen(base)] && Levels(dir) == Levels(base) > 0
  {
    DirLenPositive(base);
    var d := DirLen(base);
    assert base == base[..d] + base[d..];
    LevelsAppend(base[..d], base[d..]);
    LevelsOfNoSlash(base[d..]);
    LevelsOfDirectory(base[..d]);
  }

  lemma {:induction false} OnlyDotsClose(rel: string, depth: nat)
    requires OnlyDots(rel)
    ensures Gap(rel, depth, 0) == 0
    decreases |rel|
  {
    hide Head;
    hide Tail;
    if rel != [] {
      OnlyDotsClose(Tail(rel), depth);
    }
  }

  // ---------------------------------------------------------------------------------------
  // Without "..", and without dropped slashes
  // ---------------------------------------------------------------------------------------

  /** Without "..", a gap never gets smaller. */
  lemma {:induction false} GapWithoutDotDot(rel: string, depth: nat, gap: nat)
    requires NoDotDot(rel)
    ensures Gap(rel, depth, gap) == 0 <==> gap == 0 && !Drops(rel)
    decreases |rel|
  {
    if rel == [] {
      assert !Drops(rel);
    } else {
      HeadNotDotDot(rel);
      TailIsSuffix(rel);
      DropsUnfold(rel);
      TailOfDot(rel);
      hide NoDotDot;
      hide Drops;
      hide Head;
      hide Tail;
      if IsDot(Head(rel)) {
        GapWithoutDotDot(Tail(rel), depth, gap);
      } else {
        GapWithoutDotDot(Tail(rel), depth + 1, gap + Dropped(rel));
      }
    }
  }

  lemma TailOfDot(rel: string)
    requires rel != []
    ensures IsDot(Head(rel)) || IsDotDot(Head(rel)) ==> |Tail(rel)| == |rel| - |Head(rel)|
  {
  }

  /** If nothing is dropped, no gap opens. */
  lemma {:induction false} NoGapWithoutDrops(rel: string, depth: nat)
    requires !Drops(rel)
    ensures Gap(rel, depth, 0) == 0
    decreases |rel|
  {
    if rel != [] {
      DropsUnfold(rel);
      TailAtMost(rel);
      hide Drops;
      hide Head;
      hide Tail;
      assert Dropped(rel) == 0;
      var h, t := Head(rel), Tail(rel);
      if IsDot(h) {
        NoGapWithoutDrops(t, depth);
      } else if !IsDotDot(h) {
        NoGapWithoutDrops(t, depth + 1);
      } else {
        NoGapWithoutDrops(t, if depth > 0 then depth - 1 else 0);
      }
    }
  }

  /** For inputs without "..": the result is that of the RFC if and only if no slash is dropped. */
  lemma JoinIsRfcIff(rel: string)
    requires NoDotDot(rel)
    ensures JoinPath([], rel) == RemoveDotSegments(Absolute(rel), []) <==> !Drops(rel)
  {
    hide RemoveDotSegments;
    hide JoinPath;
    hide Gap;
    hide Drops;
    JoinIsRfcExactly(rel);
    var u := SkipSlashes(rel);
    SkipSlashesFacts(rel);
    DropsAtStart(rel);
    hide SkipSlashes;
    hide NoDotDot;
    assert NoDotDot(u) by {
      if |u| < |rel| { TailNoDotDot(rel, |rel| - |u|); }
    }
    GapWithoutDotDot(u, 0, Leading(rel));
    assert |u| == |BelowRoot(rel)| ==> u == BelowRoot(rel);
  }

  lemma MergeIsRfcIff(base: string, rel: string)
    requires Rooted(base) && NoDotSegments(base) && rel != [] && !Rooted(rel) && NoDotDot(rel)
    ensures JoinPath(base, rel) == RemoveDotSegments(Merge(base, rel), [])
            <==> (EndsWithSlash(base) || !OnlyDots(rel)) && !Drops(rel)
  {
    MergeIsRfcExactly(base, rel);
    GapWithoutDotDot(rel, Levels(base) - 1, 0);
  }

  /** For all inputs: if no slash is dropped, the result is that of the RFC. */
  lemma NothingDroppedIsRfc(rel: string)
    requires !Drops(rel)
    ensures JoinPath([], rel) == RemoveDotSegments(Absolute(rel), [])
  {
    JoinIsRfcExactly(rel);
    DropsAtStart(rel);
    SkipSlashesFacts(rel);
    assert SkipSlashes(rel) == BelowRoot(rel);
    NoGapWithoutDrops(SkipSlashes(rel), 0);
  }

  // ---------------------------------------------------------------------------------------
  // Examples
  // ---------------------------------------------------------------------------------------

  lemma GapOfLast(seg: string, depth: nat, gap: nat)
    requires seg != [] && NoSlash(seg) && !IsDot(seg) && !IsDotDot(seg)
    ensures Gap(seg, depth, gap) == gap
  {
    FindSlashOf(seg, []);
    assert seg + [] == seg && Head(seg) == seg;
    TailOfAll(seg);
    assert Dropped(seg) == 0;
  }

  lemma GapOfUpAndLast(depth: nat, gap: nat)
    ensures Gap("../b", depth, gap) == if depth == 0 && gap > 0 then gap - 1 else gap
  {
    hide Gap;
    TextOf("..", "b", "../b");
    hide Head;
    hide Tail;
    GapOfUp("../b", depth, gap);
    GapOfLast("b", if depth > 0 then depth - 1 else 0, if depth == 0 && gap > 0 then gap - 1 else gap);
  }

  lemma GapOfRun(x: string, rel: string)
    requires x != [] && x[0] != '/' && rel == "a//" + x
    ensures Gap(rel, 0, 0) == Gap(x, 1, 1)
  {
    hide Gap;
    TextOf("a", "/" + x, rel);
    AfterSlash(x);
    hide Head;
    hide Tail;
    GapCopied(rel, 0, 0);
  }

  /** After "a//", one ".." leaves the RFC a level deeper; a second one closes the gap. */
  lemma GapExamples()
    ensures Gap("a//../b", 0, 0) == 1
    ensures Gap("a//../../b", 0, 0) == 0 && Drops("a//../../b")
  {
    hide Gap;
    GapOfRun("../b", "a//../b");
    GapOfUpAndLast(1, 1);
    GapOfRun("../../b", "a//../../b");
    TextOf("..", "../b", "../../b");
    hide Head;
    hide Tail;
    GapOfUp("../../b", 1, 1);
    GapOfUpAndLast(0, 1);
    assert DropsAt("a//../../b", 2);
  }

  lemma GapOfUp(rel: string, depth: nat, gap: nat)
    requires rel != [] && IsDotDot(Head(rel))
    ensures Gap(rel, depth, gap) == if depth > 0 then Gap(Tail(rel), depth - 1, gap)
                                    else Gap(Tail(rel), 0, if gap > 0 then gap - 1 else 0)
  {
  }

  /** So "a//../b" is not joined as the RFC says, and "a//../../b" is. */
  lemma JoinExamples()
    ensures JoinPath([], "a//../b") != RemoveDotSegments(Absolute("a//../b"), [])
    ensures JoinPath([], "a//../../b") == RemoveDotSegments(Absolute("a//../../b"), [])
  {
    hide RemoveDotSegments;
    hide JoinPath;
    hide Gap;
    GapExamples();
    JoinIsRfcExactly("a//../b");
    JoinIsRfcExactly("a//../../b");
  }

  /** Nor is "b//c" joined to "/a/" as the RFC says. */
  lemma MergeExample()
    ensures JoinPath("/a/", "b//c") != RemoveDotSegments(Merge("/a/", "b//c"), [])
  {
    hide RemoveDotSegments;
    hide JoinPath;
    SlashNoDots();
    AppendNoDots("/", "a");
    assert "/" + "a" + "/" == "/a/";
    MergeIsRfcExactly("/a/", "b//c");
    hide Gap;
    TextOf("b", "/c", "b//c");
    AfterSlash("c");
    GapCopied("b//c", Levels("/a/") - 1, 0);
    GapOfLast("c", Levels("/a/"), 1);
  }
}
