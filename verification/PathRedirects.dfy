/** How often a request is redirected, on every path.

    The cleaned path is final unless it has two adjacent slashes.  They come from an empty segment behind "./" or
    "../", which the loop copies, and they stay if no later ".." removes that segment.
 */
module PathRedirects {

  import opened Basics
  import opened PathJoin
  import opened PathSlashes
  import opened PathLevels

  /** No ".." of `rel` removes a segment that has `above` segments written after it. */
  ghost predicate Stays(rel: string, above: nat)
    decreases |rel|
  {
    if rel == [] then true else
    var h, t := Head(rel), Tail(rel);
    if IsDot(h) then Stays(t, above)
    else if IsDotDot(h) then above > 0 && Stays(t, above - 1)
    else Stays(t, above + 1)
  }

  /** An empty segment of `rel` is copied and stays. */
  ghost predicate Survivor(rel: string)
    decreases |rel|
  {
    rel != [] && ((Rooted(rel) && Stays(Tail(rel), 0)) || Survivor(Tail(rel)))
  }

  /** An empty segment of the output that ends before `n`. */
  ghost predicate EmptyAt(out: string, n: int) {
    1 < n <= |out| && out[n - 2] == '/' && out[n - 1] == '/'
  }

  /** An empty segment that is already written stays. */
  ghost predicate Written(rel: string, out: string) {
    exists n :: EmptyAt(out, n) && Stays(rel, Levels(out[n..]))
  }

  lemma StaysStep(rel: string, k: nat)
    requires rel != []
    ensures IsDot(Head(rel)) ==> (Stays(rel, k) <==> Stays(Tail(rel), k))
    ensures IsDotDot(Head(rel)) ==> (Stays(rel, k) <==> k > 0 && Stays(Tail(rel), k - 1))
    ensures !IsDot(Head(rel)) && !IsDotDot(Head(rel)) ==> (Stays(rel, k) <==> Stays(Tail(rel), k + 1))
  {
    hide Head;
    hide Tail;
  }

  lemma StaysWritten(rel: string, out: string, n: int)
    requires EmptyAt(out, n) && Stays(rel, Levels(out[n..]))
    ensures Written(rel, out)
  {
  }

  lemma WrittenAt(rel: string, out: string) returns (n: nat)
    requires Written(rel, out)
    ensures n <= |out| && EmptyAt(out, n) && Stays(rel, Levels(out[n..]))
  {
    hide Stays;
    hide Levels;
    n :| EmptyAt(out, n) && Stays(rel, Levels(out[n..]));
  }

  lemma NoDoubleIff(out: string)
    ensures NoDoubleSlash(out) <==> forall n :: !EmptyAt(out, n)
  {
    if NoDoubleSlash(out) {
    } else {
      var i :| 0 < i < |out| && out[i - 1] == '/' && out[i] == '/';
      assert EmptyAt(out, i + 1);
    }
  }

  lemma AtEnd(out: string)
    ensures NoDoubleSlash(out) <==> !Written([], out)
  {
    NoDoubleIff(out);
  }

  /** After "." */
  lemma WrittenSame(rel: string, out: string)
    requires rel != [] && IsDot(Head(rel))
    ensures Written(rel, out) <==> Written(Tail(rel), out)
    ensures Survivor(rel) <==> Survivor(Tail(rel))
  {
    HeadFacts(rel);
    assert forall k: nat :: Stays(rel, k) <==> Stays(Tail(rel), k);
    hide Stays;
    hide Tail;
  }

  lemma EatDirSplit(out: string)
    requires Directory(out) && out != "/"
    ensures var r := EatDir(out);
            |r| < |out| && out == r + out[|r|..|out| - 1] + "/" && NoSlash(out[|r|..|out| - 1])
  {
    EatFileOfDir(out);
    var t := out[..|out| - 1];
    assert out == t + "/";
    DirLenPositive(t);
    assert EatDir(out) == t[..DirLen(t)];
    assert t[DirLen(t)..] == out[DirLen(t)..|out| - 1];
  }

  lemma SuffixLevels(out: string, n: nat)
    requires Directory(out) && out != "/" && n <= |EatDir(out)|
    ensures EatDir(out) <= out && Levels(out[n..]) == Levels(EatDir(out)[n..]) + 1
  {
    EatDirSplit(out);
    var r := EatDir(out);
    var seg := out[|r|..|out| - 1];
    assert out[n..] == (r[n..] + seg) + "/";
    LevelsAppend(r[n..] + seg, "/");
    LevelsAppend(r[n..], seg);
    LevelsOfNoSlash(seg);
    assert Levels("/") == 1;
  }

  /** After "..": what has segments written after it loses one of them. */
  lemma WrittenUp(rel: string, out: string)
    requires rel != [] && IsDotDot(Head(rel)) && Directory(out)
    ensures Written(rel, out) <==> Written(Tail(rel), EatDir(out))
  {
    hide *;
    var t, r := Tail(rel), EatDir(out);
    if out == "/" {
      NothingWritten(rel, t);
    } else {
      EatDirSplit(out);
      if Written(rel, out) {
        var n := WrittenAt(rel, out);
        StaysStep(rel, Levels(out[n..]));
        InPrefix(out, r, n);
        SuffixLevels(out, n);
        EmptyInPrefix(out, r, n);
        StaysWritten(t, r, n);
      }
      if Written(t, r) {
        var n := WrittenAt(t, r);
        SuffixLevels(out, n);
        EmptyInPrefix(out, r, n);
        StaysStep(rel, Levels(out[n..]));
        StaysWritten(rel, out, n);
      }
    }
  }

  lemma NothingWritten(rel: string, t: string)
    ensures !Written(rel, "/") && !Written(t, EatDir("/"))
  {
    hide Stays;
    EatDirLevels("/");
    LevelsOfDirectory("/");
    LevelsOfDirectory(EatDir("/"));
  }

  lemma EmptyInPrefix(out: string, r: string, n: nat)
    requires r <= out && n <= |r|
    ensures EmptyAt(r, n) <==> EmptyAt(out, n)
  {
  }

  lemma InPrefix(out: string, r: string, n: int)
    requires |r| < |out| && out == r + out[|r|..|out| - 1] + "/" && NoSlash(out[|r|..|out| - 1])
    requires EmptyAt(out, n) && Levels(out[n..]) > 0
    ensures n <= |r|
  {
    assert out[|out|..] == [];
  }

  lemma EmptyAppended(out: string, h: string, n: int)
    requires EndsWithSlash(out) && EndsWithSlash(h) && NoSlash(h[..|h| - 1])
    ensures EmptyAt(out + h, n) <==> EmptyAt(out, n) || (h == "/" && n == |out| + 1)
  {
    var next := out + h;
    if |out| < n <= |next| {
      assert next[n - 1] == h[n - 1 - |out|];
      assert n < |next| ==> h[n - 1 - |out|] == h[..|h| - 1][n - 1 - |out|];
      assert n > |out| + 1 ==> next[n - 2] == h[..|h| - 1][n - 2 - |out|];
    }
  }

  lemma LevelsAppended(out: string, h: string, n: nat)
    requires Levels(h) == 1 && n <= |out|
    ensures Levels((out + h)[n..]) == Levels(out[n..]) + 1
  {
    assert (out + h)[n..] == out[n..] + h;
    LevelsAppend(out[n..], h);
  }

  /** After a copied segment with its slash. */
  lemma WrittenDown(rel: string, out: string)
    requires rel != [] && !IsDot(Head(rel)) && !IsDotDot(Head(rel)) && EndsWithSlash(Head(rel))
    requires Directory(out)
    ensures Written(Tail(rel), out + Head(rel)) <==> Written(rel, out) || (Rooted(rel) && Stays(Tail(rel), 0))
  {
    hide Stays;
    hide Tail;
    hide Head;
    hide Levels;
    hide EmptyAt;
    hide IsDot;
    hide IsDotDot;
    var h, t := Head(rel), Tail(rel);
    HeadFacts(rel);
    DroppedAreSlashes(rel);
    SlashHeadIff(rel);
    var next := out + h;
    assert next[|next|..] == [];
    NoLevels();
    hide Written;
    if Written(t, next) {
      var n := WrittenAt(t, next);
      EmptyAppended(out, h, n);
      if EmptyAt(out, n) {
        EmptyInside(out, n);
        LevelsAppended(out, h, n);
        StaysStep(rel, Levels(out[n..]));
        StaysWritten(rel, out, n);
      }
    }
    if Written(rel, out) {
      WrittenBelow(rel, out);
    }
    EmptyAppended(out, h, |next|);
    if Rooted(rel) && Stays(t, 0) {
      StaysWritten(t, next, |next|);
    }
  }

  lemma WrittenBelow(rel: string, out: string)
    requires rel != [] && !IsDot(Head(rel)) && !IsDotDot(Head(rel)) && EndsWithSlash(Head(rel))
    requires Directory(out) && Written(rel, out)
    ensures Written(Tail(rel), out + Head(rel))
  {
    hide Stays;
    hide Tail;
    hide Head;
    hide Levels;
    hide EmptyAt;
    hide IsDot;
    hide IsDotDot;
    HeadFacts(rel);
    DroppedAreSlashes(rel);
    hide Written;
    var n := WrittenAt(rel, out);
    EmptyAppended(out, Head(rel), n);
    LevelsAppended(out, Head(rel), n);
    StaysStep(rel, Levels(out[n..]));
    StaysWritten(Tail(rel), out + Head(rel), n);
  }

  lemma SlashHeadIff(rel: string)
    requires rel != []
    ensures Rooted(rel) <==> Head(rel) == "/"
  {
  }

  lemma EmptyInside(out: string, n: int)
    requires EmptyAt(out, n)
    ensures 0 <= n <= |out|
  {
  }

  lemma NoLevels()
    ensures Levels([]) == 0
  {
  }

  /** At a last segment without a slash. */
  lemma WrittenLast(rel: string, out: string)
    requires rel != [] && Head(rel) == rel && !IsDot(rel) && !IsDotDot(rel) && !EndsWithSlash(rel) && Directory(out)
    ensures NoDoubleSlash(Walk(rel, out)) <==> !Survivor(rel) && !Written(rel, out)
  {
    HeadFacts(rel);
    TailOfAll(rel);
    WalkOrdinary(rel, out);
    SlashHeadIff(rel);
    assert !Survivor(rel);
    hide Survivor;
    hide Head;
    hide Tail;
    hide Walk;
    hide EmptyAt;
    hide Levels;
    NoDoubleIff(out + rel);
    hide NoDoubleSlash;
    hide Written;
    if Written(rel, out) {
      var n := WrittenAt(rel, out);
      EmptyBeforeLast(out, rel, n);
    }
    if n :| EmptyAt(out + rel, n) {
      EmptyBeforeLast(out, rel, n);
      EmptyInside(out, n);
      StaysStep(rel, Levels(out[n..]));
      StaysWritten(rel, out, n);
    }
  }

  lemma EmptyBeforeLast(out: string, rel: string, n: int)
    requires rel != [] && NoSlash(rel[..|rel| - 1]) && !EndsWithSlash(rel)
    ensures EmptyAt(out + rel, n) <==> EmptyAt(out, n)
  {
    var next := out + rel;
    if |out| < n <= |next| {
      assert next[n - 1] == rel[n - 1 - |out|];
      assert n < |next| ==> rel[n - 1 - |out|] == rel[..|rel| - 1][n - 1 - |out|];
    }
  }

  /** Two adjacent slashes are left if and only if an empty segment stays. */
  lemma {:induction false} DoubleSlashIff(rel: string, out: string)
    requires Directory(out)
    ensures out != [] && (NoDoubleSlash(Walk(rel, out)) <==> !Survivor(rel) && !Written(rel, out))
    decreases |rel|
  {
    hide Stays;
    hide Written;
    hide NoDoubleSlash;
    hide Walk;
    hide Head;
    hide Tail;
    hide EatDir;
    if rel == [] {
      AtEnd(out);
      WalkNothing(out);
    } else {
      var h, t := Head(rel), Tail(rel);
      WalkUnfold(rel, out);
      PutFacts(h, out);
      if IsDot(h) {
        WrittenSame(rel, out);
        DoubleSlashIff(t, out);
      } else if IsDotDot(h) {
        WrittenUp(rel, out);
        NotRooted(rel);
        EatDirLevels(out);
        DoubleSlashIff(t, EatDir(out));
      } else if EndsWithSlash(h) {
        WrittenDown(rel, out);
        DoubleSlashIff(t, out + h);
      } else {
        LastHead(rel);
        WrittenLast(rel, out);
      }
    }
  }

  lemma NotRooted(rel: string)
    requires rel != [] && IsDotDot(Head(rel))
    ensures !Rooted(rel)
  {
    HeadFacts(rel);
  }

  /** For every path: one redirect is enough if and only if no empty segment stays. */
  lemma OneRedirectExactly(path: string)
    ensures Canonical(Clean(path)) <==> !Survivor(SkipSlashes(path))
  {
    hide *;
    JoinHasNoDotSegments([], path);
    StartFacts(path);
    var u := SkipSlashes(path);
    RootFacts(u);
    DoubleSlashIff(u, "/");
    CanonicalIff(path);
  }

  lemma RootFacts(rel: string)
    ensures Directory("/") && !Written(rel, "/")
  {
    hide Stays;
  }

  lemma CanonicalIff(path: string)
    requires Rooted(JoinPath([], path)) && NoDotSegments(JoinPath([], path))
    ensures Canonical(Clean(path)) <==> NoDoubleSlash(JoinPath([], path))
  {
    hide JoinPath;
  }

  /** The path "/.//../a" has an empty segment, which ".." removes: one redirect is enough. */
  lemma EmptySegmentRemoved()
    ensures DotRun("/.//../a") && Canonical(Clean("/.//../a"))
  {
    var path := "/.//../a";
    assert DotRunAt(path, 1);
    hide Canonical;
    hide Survivor;
    hide SkipSlashes;
    OneRedirectExactly(path);
    AfterSlash(".//../a");
    assert path == "/" + ".//../a";
    NoSurvivor();
  }

  lemma NoSurvivor()
    ensures !Survivor(".//../a")
  {
    SurvivorAfterUp();
    hide Stays;
    TextOf([], "../a", "/../a");
    assert "/../a" == [] + "/" + "../a" && SkipSlashes("../a") == "../a";
    TextOf(".", "/../a", ".//../a");
    hide Tail;
    hide Head;
    hide SkipSlashes;
    assert !Survivor("/../a");
  }

  lemma SurvivorAfterUp()
    ensures !Survivor("../a") && !Stays("../a", 0)
  {
    TextOf("..", "a", "../a");
    FindSlashOf("a", []);
    assert "a" + [] == "a" && Head("a") == "a";
    TailOfAll("a");
    assert !Survivor([]) && !Survivor("a");
  }
}
