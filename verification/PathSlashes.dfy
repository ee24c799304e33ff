/** Adjacent slashes: which of them `path_join` drops, and when one redirect is enough for a path without "..". */
module PathSlashes {

  import opened PathJoin

  ghost predicate NoDotDot(s: string) {
    forall i, j :: SegmentAt(s, i, j) ==> s[i..j] != ".."
  }

  /** A "." segment at `i`, directly followed by two slashes. */
  predicate DotRunAt(s: string, i: int) {
    && 0 <= i && i + 2 < |s|
    && (i == 0 || s[i - 1] == '/') && s[i] == '.' && s[i + 1] == '/' && s[i + 2] == '/'
  }

  ghost predicate DotRun(s: string) {
    exists i :: DotRunAt(s, i)
  }

  lemma HeadNotDotDot(rel: string)
    requires rel != [] && NoDotDot(rel)
    ensures !IsDotDot(Head(rel))
  {
    var k := FindSlash(rel);
    assert SegmentAt(rel, 0, k);
    assert rel[0..k] == rel[..k];
  }

  lemma TailNoDotDot(s: string, n: nat)
    requires NoDotDot(s) && 0 < n <= |s| && s[n - 1] == '/'
    ensures NoDotDot(s[n..])
  {
    var t := s[n..];
    assert forall k :: 0 <= k < |t| ==> t[k] == s[n + k];
    forall i, j | SegmentAt(t, i, j)
      ensures t[i..j] != ".."
    {
      assert i == 0 || s[n + i - 1] == t[i - 1];
      assert SegmentAt(s, n + i, n + j);
      assert t[i..j] == s[n + i..n + j];
    }
  }

  /** What is read next, after a slash: a suffix without "..". */
  lemma TailIsSuffix(rel: string)
    requires rel != [] && NoDotDot(rel)
    ensures NoDotDot(Tail(rel))
  {
    hide Tail;
    hide Head;
    hide NoDotDot;
    TailFacts(rel);
    HeadFacts(rel);
    if |Head(rel)| < |rel| {
      TailNoDotDot(rel, |rel| - |Tail(rel)|);
    } else {
      TailOfAll(rel);
      NothingNoDotDot();
    }
  }

  lemma TailOfAll(rel: string)
    requires rel != [] && |Head(rel)| == |rel|
    ensures Tail(rel) == []
  {
  }

  lemma NothingNoDotDot()
    ensures NoDotDot([])
  {
  }

  // ---------------------------------------------------------------------------------------
  // When one redirect is enough
  // ---------------------------------------------------------------------------------------

  /** Cutting a text after a slash keeps its dot runs, as long as none begins before the cut. */
  lemma DotRunCut(s: string, n: nat)
    requires 0 < n <= |s| && s[n - 1] == '/'
    requires forall i :: 0 <= i < n ==> !DotRunAt(s, i)
    ensures DotRun(s) <==> DotRun(s[n..])
  {
    var t := s[n..];
    assert forall k :: 0 <= k < |t| ==> t[k] == s[n + k];
    if DotRun(s) {
      var i :| DotRunAt(s, i);
      assert DotRunAt(t, i - n);
    }
    if DotRun(t) {
      var i :| DotRunAt(t, i);
      assert DotRunAt(s, n + i);
    }
  }

  /** The dot runs of `rel` are one at its first segment, if that is "./" before a slash, and those of the rest. */
  lemma DotRunUnfold(rel: string)
    requires rel != [] && NoDotDot(rel)
    ensures var t := Tail(rel);
            DotRun(rel) <==> (IsDot(Head(rel)) && t != [] && t[0] == '/') || DotRun(t)
  {
    var h, t := Head(rel), Tail(rel);
    var n := |rel| - |t|;
    HeadFacts(rel);
    TailFacts(rel);
    HeadNotDotDot(rel);
    if |h| == |rel| {
      assert t == [];
      assert forall i :: 0 <= i < |rel| - 1 ==> rel[i] == h[..|h| - 1][i];
    } else if IsDot(h) && t != [] && t[0] == '/' {
      assert h == rel[..2] && t[0] == rel[2];
      assert DotRunAt(rel, 0);
    } else {
      NoneBefore(rel);
      DotRunCut(rel, n);
    }
  }

  lemma NoneBefore(rel: string)
    requires rel != [] && !IsDotDot(Head(rel)) && |Head(rel)| < |rel|
    requires !(IsDot(Head(rel)) && Tail(rel) != [] && Tail(rel)[0] == '/')
    ensures forall i :: 0 <= i < |rel| - |Tail(rel)| ==> !DotRunAt(rel, i)
  {
    var h, t := Head(rel), Tail(rel);
    HeadFacts(rel);
    TailFacts(rel);
    BetweenIsSlashes(rel);
    assert forall i :: 0 <= i < |h| - 1 ==> rel[i] == h[..|h| - 1][i];
    assert |rel| >= 2 && rel[0] == '.' && rel[1] == '/' ==> IsDot(h) && t == rel[2..];
  }

  lemma {:induction false} SkippedAreSlashes(s: string)
    ensures forall i :: 0 <= i < |s| - |SkipSlashes(s)| ==> s[i] == '/'
  {
    if s != [] && s[0] == '/' {
      SkippedAreSlashes(s[1..]);
    }
  }

  lemma BetweenIsSlashes(rel: string)
    requires rel != []
    ensures forall i :: |Head(rel)| <= i < |rel| - |Tail(rel)| ==> rel[i] == '/'
  {
    SkippedAreSlashes(rel[|Head(rel)|..]);
    forall i | |Head(rel)| <= i < |rel| - |Tail(rel)|
      ensures rel[i] == '/'
    {
      assert rel[i] == rel[|Head(rel)|..][i - |Head(rel)|];
    }
  }

  /** Without "..", the loop only appends. */
  lemma {:induction false} WalkExtends(rel: string, out: string)
    requires EndsWithSlash(out) && NoDotDot(rel)
    ensures out <= Walk(rel, out)
    decreases |rel|
  {
    hide Head;
    hide Tail;
    hide NoDotDot;
    hide EatFile;
    if rel != [] {
      HeadNotDotDot(rel);
      TailIsSuffix(rel);
      EatFileOfDir(out);
      var h := Head(rel);
      HeadFacts(rel);
      if IsDot(h) {
        WalkExtends(Tail(rel), out);
      } else if |h| < |rel| {
        WalkExtends(Tail(rel), out + h);
      } else {
        TailOfAll(rel);
      }
    }
  }

  lemma DoubleStays(s: string, t: string)
    requires s <= t && NoDoubleSlash(t)
    ensures NoDoubleSlash(s)
  {
  }

  lemma {:induction false} WalkNoDoubleIff(rel: string, out: string)
    requires EndsWithSlash(out) && NoDoubleSlash(out) && NoDotDot(rel)
    ensures NoDoubleSlash(Walk(rel, out)) <==> (rel == [] || rel[0] != '/') && !DotRun(rel)
    decreases |rel|
  {
    hide Tail;
    hide Head;
    hide NoDotDot;
    hide NoDoubleSlash;
    hide EatFile;
    hide Walk;
    if rel == [] {
      WalkNothing(out);
    } else {
      var h, t := Head(rel), Tail(rel);
      HeadNotDotDot(rel);
      TailIsSuffix(rel);
      HeadFacts(rel);
      TailFacts(rel);
      DotRunUnfold(rel);
      WalkUnfold(rel, out);
      EatFileOfDir(out);
      if IsDot(h) {
        WalkNoDoubleIff(t, out);
      } else if rel[0] == '/' {
        SlashHead(rel);
        TwoSlashes(out);
        WalkExtends(t, out + h);
        if NoDoubleSlash(Walk(rel, out)) {
          DoubleStays(out + h, Walk(rel, out));
        }
      } else {
        assert h[0] == rel[0];
        AppendNoDouble(out, h);
        if |h| < |rel| {
          WalkNoDoubleIff(t, out + h);
        } else {
          TailOfAll(rel);
          WalkNothing(out + h);
          assert !DotRun(t);
        }
      }
    }
  }

  lemma SlashHead(rel: string)
    requires Rooted(rel)
    ensures Head(rel) == "/"
  {
  }

  lemma TwoSlashes(out: string)
    requires EndsWithSlash(out)
    ensures !NoDoubleSlash(out + "/") && EndsWithSlash(out + "/")
  {
    assert (out + "/")[|out| - 1] == '/' && (out + "/")[|out|] == '/';
  }

  /** For paths without "..": one redirect is enough if and only if no "." segment is directly followed by two
      slashes. */
  lemma OneRedirectIff(path: string)
    requires NoDotDot(path)
    ensures Canonical(Clean(path)) <==> !DotRun(path)
  {
    hide Walk;
    hide NoDotDot;
    hide NoDoubleSlash;
    hide NoDotSegments;
    JoinHasNoDotSegments([], path);
    SingleSlash();
    if path == [] {
      assert Clean(path) == "/";
    } else {
      var rest := SkipSlashes(path);
      SkipSlashesFacts(path);
      if path[0] == '/' {
        SkippedAreSlashes(path);
        assert |rest| < |path|;
        DotRunCut(path, |path| - |rest|);
        TailNoDotDot(path, |path| - |rest|);
      } else {
        assert rest == path;
      }
      WalkNoDoubleIff(rest, "/");
    }
  }

  lemma SingleSlash()
    ensures NoDoubleSlash("/") && EndsWithSlash("/")
  {
  }

  /** For all paths without adjacent slashes, with or without "..", one redirect is enough. */
  lemma OneRedirectWithoutDoubleSlash(path: string)
    requires NoDoubleSlash(path)
    ensures Canonical(Clean(path))
  {
    hide Walk;
    hide NoDotSegments;
    JoinHasNoDotSegments([], path);
    SingleSlash();
    if path != [] {
      var rest := if path[0] == '/' then path[1..] else path;
      assert SkipSlashes(path) == rest;
      WalkKeepsNoDouble(rest, "/");
    }
  }

  lemma {:induction false} WalkKeepsNoDouble(rel: string, out: string)
    requires EndsWithSlash(out) && NoDoubleSlash(out) && Rooted(out)
    requires NoDoubleSlash(rel) && (rel == [] || rel[0] != '/')
    ensures NoDoubleSlash(Walk(rel, out))
    decreases |rel|
  {
    hide Tail;
    hide Head;
    hide EatFile;
    hide EatDir;
    hide Walk;
    hide NoDoubleSlash;
    if rel == [] {
      WalkNothing(out);
    } else {
      var h := Head(rel);
      HeadFacts(rel);
      WalkUnfold(rel, out);
      EatFileOfDir(out);
      var next := Put(h, out);
      if !IsDot(h) && !IsDotDot(h) {
        AppendNoDouble(out, h);
      } else {
        DoubleStays(next, out);
      }
      if |h| < |rel| {
        TailWithoutRuns(rel);
        RestNoDouble(rel, |h|);
        WalkKeepsNoDouble(Tail(rel), next);
      } else {
        TailOfAll(rel);
        WalkNothing(next);
      }
    }
  }

  lemma RestNoDouble(rel: string, n: nat)
    requires NoDoubleSlash(rel) && 0 < n < |rel| && rel[n - 1] == '/'
    ensures NoDoubleSlash(rel[n..]) && rel[n..][0] != '/'
  {
  }

  /** The path "/.//a" is redirected to "//a", and only then to "/a". */
  lemma OneRedirectIsNotEnough()
    ensures Clean("/.//a") == "//a" && !Canonical("//a")
  {
    hide Walk;
    var p := "/.//a";
    assert p[1..] == ".//a";
    assert SkipSlashes(p) == SkipSlashes(".//a") == ".//a";
    FindSlashOf(".", "//a");
    assert "." + "//a" == ".//a";
    assert Head(".//a") == "./" && Tail(".//a") == ".//a"[2..] == "/a";
    WalkUnfold(".//a", "/");
    SlashHead("/a");
    assert "/a"[1..] == "a" && SkipSlashes("a") == "a";
    WalkOrdinary("/a", "/");
    FindSlashOf("a", []);
    assert "a" + [] == "a";
    WalkOrdinary("a", "//");
    assert "/" + "/" == "//" && "//" + "a" == "//a";
    assert "//a"[0] == '/' && "//a"[1] == '/';
  }

  // ---------------------------------------------------------------------------------------
  // Dropped slashes
  // ---------------------------------------------------------------------------------------

  /** The slash before `i` ends a segment "." or "..". */
  predicate EndsDots(s: string, i: int)
    requires 0 <= i <= |s|
  {
    || (i >= 2 && s[i - 2] == '.' && (i == 2 || s[i - 3] == '/'))
    || (i >= 3 && s[i - 3] == '.' && s[i - 2] == '.' && (i == 3 || s[i - 4] == '/'))
  }

  /** A slash at `i` that the code drops: it follows a slash, and not one that ends "." or "..". */
  predicate DropsAt(s: string, i: int) {
    0 < i < |s| && s[i - 1] == '/' && s[i] == '/' && !EndsDots(s, i)
  }

  ghost predicate Drops(s: string) {
    exists i :: DropsAt(s, i)
  }

  lemma {:induction false} SqueezeShrinks(x: string)
    ensures |Squeeze(x)| <= |x|
    decreases |x|
  {
    if x != [] {
      SqueezeShrinks(Tail(x));
      TailAtMost(x);
    }
  }

  /** Nothing is squeezed if and only if no slash is dropped. */
  lemma {:induction false} SqueezeIff(x: string)
    ensures Squeeze(x) == x <==> !Drops(x)
    decreases |x|
  {
    if x == [] {
      assert !Drops(x);
    } else {
      hide Drops;
      hide Squeeze;
      hide Head;
      hide Tail;
      SqueezeShrinks(Tail(x));
      SqueezeIff(Tail(x));
      DropsUnfold(x);
      SqueezeStep(x);
    }
  }

  lemma SqueezeStep(x: string)
    requires x != [] && |Squeeze(Tail(x))| <= |Tail(x)|
    ensures |Tail(x)| <= |x| - |Head(x)|
    ensures Squeeze(x) == x <==> |Tail(x)| == |x| - |Head(x)| && Squeeze(Tail(x)) == Tail(x)
  {
    var h, t, u := Head(x), Tail(x), Squeeze(Tail(x));
    SqueezeUnfold(x);
    HeadFacts(x);
    TailFacts(x);
    hide Squeeze;
    hide Head;
    TailAtMost(x);
    hide Tail;
    assert x == h + x[|h|..];
    assert (h + u)[|h|..] == u;
    assert |t| == |x| - |h| ==> t == x[|h|..];
  }

  lemma TailAtMost(x: string)
    requires x != []
    ensures |Tail(x)| <= |x| - |Head(x)|
  {
    hide Head;
  }

  /** Cutting a text after a slash keeps the dropped slashes that are further on. */
  lemma DropsCut(x: string, n: nat)
    requires 0 < n <= |x| && x[n - 1] == '/'
    requires forall i :: DropsAt(x, i) ==> i > n
    ensures Drops(x) <==> Drops(x[n..])
  {
    var t := x[n..];
    assert forall k :: 0 <= k < |t| ==> t[k] == x[n + k];
    if Drops(x) {
      var i :| DropsAt(x, i);
      assert DropsAt(t, i - n);
    }
    if Drops(t) {
      var i :| DropsAt(t, i);
      assert DropsAt(x, n + i);
    }
  }

  /** The dropped slashes of `x` are those behind its first segment and those of the rest. */
  lemma DropsUnfold(x: string)
    requires x != []
    ensures Drops(x) <==> |Tail(x)| < |x| - |Head(x)| || Drops(Tail(x))
  {
    var h, t := Head(x), Tail(x);
    HeadFacts(x);
    TailFacts(x);
    TailAtMost(x);
    if |t| < |x| - |h| {
      DroppedBehindHead(x);
    } else {
      hide Head;
      hide Tail;
      forall i | DropsAt(x, i)
        ensures i > |h|
      {
        DropsAfterHead(x, i);
      }
      hide DropsAt;
      if |h| < |x| {
        DropsCut(x, |h|);
      } else {
        assert t == [];
        DropsNothing(x);
      }
    }
  }

  lemma DropsNothing(x: string)
    requires forall i :: DropsAt(x, i) ==> i > |x|
    ensures !Drops(x) && !Drops([])
  {
  }

  lemma DroppedBehindHead(x: string)
    requires x != [] && |Tail(x)| < |x| - |Head(x)|
    ensures Drops(x)
  {
    var h := Head(x);
    HeadFacts(x);
    BetweenIsSlashes(x);
    assert !IsDot(h) && !IsDotDot(h);
    assert forall k :: 0 <= k < |h| - 1 ==> x[k] == h[..|h| - 1][k];
    assert x[|h| - 1] == '/' && x[|h|] == '/';
    assert DropsAt(x, |h|);
  }

  /** If nothing is skipped after the head, a dropped slash is further on. */
  lemma DropsAfterHead(x: string, i: int)
    requires x != [] && |Tail(x)| == |x| - |Head(x)| && DropsAt(x, i)
    ensures i > |Head(x)|
  {
    var h, t := Head(x), Tail(x);
    HeadFacts(x);
    TailFacts(x);
    assert forall k :: 0 <= k < |h| - 1 ==> x[k] == h[..|h| - 1][k];
    assert i >= |h|;
    assert t == x[|h|..];
  }

  lemma DropsAtStart(rel: string)
    ensures var t := if Rooted(rel) then rel[1..] else rel;
            Drops(rel) <==> |SkipSlashes(rel)| < |t| || Drops(t)
  {
    if Rooted(rel) {
      var t := rel[1..];
      assert forall k :: 0 <= k < |t| ==> t[k] == rel[k + 1];
      assert SkipSlashes(rel) == SkipSlashes(t);
      if Rooted(t) {
        assert DropsAt(rel, 1);
      } else {
        if Drops(rel) {
          var i :| DropsAt(rel, i);
          assert DropsAt(t, i - 1);
        }
        if Drops(t) {
          var i :| DropsAt(t, i);
          assert DropsAt(rel, i + 1);
        }
      }
    }
  }
}
