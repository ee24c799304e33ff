/** URI path resolution: `path_join` with its helpers `eat_file` and `eat_dir`.

    The C++ code moves a write cursor over one preallocated buffer.  The methods at the end
    of this module do the same on an array of exactly the computed size, so that every write is
    checked to be inside it.  They are specified by the functions `EatFile`, `EatDir` and `Walk`
    on the text written so far, and those functions are compared with `RemoveDotSegments`,
    an independent transcription of section 5.2.4 of RFC 3986.
 */
module PathJoin {

  import opened Basics

  // ---------------------------------------------------------------------------------------
  // What a path looks like
  // ---------------------------------------------------------------------------------------

  /** s[i..j] is one whole segment of s: it lies between slashes (or the ends) and holds none. */
  ghost predicate SegmentAt(s: string, i: int, j: int) {
    && 0 <= i <= j <= |s|
    && (i == 0 || s[i - 1] == '/')
    && (j == |s| || s[j] == '/')
    && forall k :: i <= k < j ==> s[k] != '/'
  }

  predicate NoSlash(s: string) {
    forall k :: 0 <= k < |s| ==> s[k] != '/'
  }

  ghost predicate NoDotSegments(s: string) {
    forall i, j :: SegmentAt(s, i, j) ==> s[i..j] != "." && s[i..j] != ".."
  }

  ghost predicate NoDoubleSlash(s: string) {
    forall i :: 0 < i < |s| ==> !(s[i - 1] == '/' && s[i] == '/')
  }

  predicate Rooted(s: string) {
    s != [] && s[0] == '/'
  }

  predicate EndsWithSlash(s: string) {
    s != [] && s[|s| - 1] == '/'
  }

  ghost predicate Canonical(s: string) {
    Rooted(s) && NoDotSegments(s) && NoDoubleSlash(s)
  }

  // ---------------------------------------------------------------------------------------
  // Specification of the cursor algorithm
  // ---------------------------------------------------------------------------------------

  /** Length of the longest prefix of `s` that is empty or ends with a slash. */
  function DirLen(s: string): (d: nat)
    ensures d <= |s|
    ensures d == 0 || s[d - 1] == '/'
    ensures NoSlash(s[d..])
  {
    if s == [] || s[|s| - 1] == '/' then |s| else DirLen(s[..|s| - 1])
  }

  /** Drops the last segment but keeps its slash; a text without a slash becomes "/". */
  function EatFile(out: string): (r: string)
    ensures EndsWithSlash(r)
    ensures Rooted(out) ==> Rooted(r) && r <= out
    ensures out != [] ==> |r| <= |out|
  {
    if DirLen(out) == 0 then "/" else out[..DirLen(out)]
  }

  /** Drops the last directory: what ".." does. */
  function EatDir(out: string): (r: string)
    ensures EndsWithSlash(r)
    ensures Rooted(out) ==> Rooted(r) && r <= out
    ensures out != [] ==> |r| <= |out|
  {
    var e := EatFile(out);
    EatFile(e[..|e| - 1])
  }

  /** Position of the first slash, or |s|. */
  function FindSlash(s: string): (k: nat)
    ensures k <= |s|
    ensures NoSlash(s[..k])
    ensures k < |s| ==> s[k] == '/'
  {
    if s == [] || s[0] == '/' then 0 else 1 + FindSlash(s[1..])
  }

  function SkipSlashes(s: string): (r: string)
    ensures |r| <= |s|
    ensures r == [] || r[0] != '/'
  {
    if s != [] && s[0] == '/' then SkipSlashes(s[1..]) else s
  }

  /** The first segment together with its slash, if it has one. */
  function Head(rel: string): (h: string)
    requires rel != []
    ensures 0 < |h| <= |rel|
  {
    var k := FindSlash(rel);
    if k == |rel| then rel else rel[..k + 1]
  }

  /** What is read next.  Repeated slashes are skipped, but not after "./" and "../". */
  function Tail(rel: string): (t: string)
    requires rel != []
    ensures |t| < |rel|
  {
    var h := Head(rel);
    if IsDot(h) || IsDotDot(h) then rel[|h|..] else SkipSlashes(rel[|h|..])
  }

  lemma HeadFacts(rel: string)
    requires rel != []
    ensures var h := Head(rel); h <= rel && NoSlash(h[..|h| - 1]) && (|h| < |rel| ==> EndsWithSlash(h))
  {
  }

  lemma {:induction false} SkipSlashesFacts(s: string)
    ensures var r := SkipSlashes(s); r == s[|s| - |r|..] && (|r| < |s| ==> s[|s| - |r| - 1] == '/')
  {
    if s != [] && s[0] == '/' {
      SkipSlashesFacts(s[1..]);
    }
  }

  lemma TailFacts(rel: string)
    requires rel != []
    ensures var t := Tail(rel); t == rel[|rel| - |t|..]
    ensures |Head(rel)| < |rel| ==> rel[|rel| - |Tail(rel)| - 1] == '/'
    ensures !IsDot(Head(rel)) && !IsDotDot(Head(rel)) ==> Tail(rel) == [] || Tail(rel)[0] != '/'
  {
    HeadFacts(rel);
    SkipSlashesFacts(rel[|Head(rel)|..]);
  }

  /** "." or "./" */
  predicate IsDot(h: string) {
    1 <= |h| <= 2 && h[0] == '.' && (|h| == 2 ==> h[1] == '/')
  }

  /** ".." or "../" */
  predicate IsDotDot(h: string) {
    2 <= |h| <= 3 && h[0] == '.' && h[1] == '.' && (|h| == 3 ==> h[2] == '/')
  }

  /** What one segment does to the text written so far. */
  function Put(h: string, out: string): (r: string)
    requires out != []
    ensures r != [] && |r| <= |out| + |h|
  {
    if IsDot(h) then out
    else if IsDotDot(h) then EatDir(out)
    else EatFile(out) + h
  }

  /** The main loop: `rel` is what is still to be read, `out` what has been written. */
  function Walk(rel: string, out: string): (r: string)
    requires out != []
    ensures r != []
    decreases |rel|
  {
    if rel == [] then out else Walk(Tail(rel), Put(Head(rel), out))
  }

  function Query(q: string): string {
    if q == [] then [] else "?" + q
  }

  /** The path part of the result, before any query. */
  function JoinPath(base: string, rel: string): (r: string)
    ensures r != []
  {
    if rel == [] then if base == [] then "/" else base
    else if rel[0] == '/' then Walk(SkipSlashes(rel), "/")
    else if base == [] then Walk(rel, "/")
    else Walk(rel, base)
  }

  /** The whole result. */
  function Join(base: string, baseQuery: string, rel: string, relQuery: string): string {
    JoinPath(base, rel) + Query(if rel == [] && relQuery == [] then baseQuery else relQuery)
  }

  /** What section 5.2.2 of RFC 3986 says of the parts: a rooted path does not look at the base, an empty path is the
      base, and the query is that of the reference, unless it has neither path nor query. */
  lemma JoinParts(base: string, baseQuery: string, rel: string, relQuery: string)
    ensures Rooted(rel) ==> JoinPath(base, rel) == JoinPath([], rel)
    ensures base != [] ==> JoinPath(base, []) == base
    ensures var path, joined := JoinPath(base, rel), Join(base, baseQuery, rel, relQuery);
            var query := if rel == [] && relQuery == [] then baseQuery else relQuery;
            if query == [] then joined == path else joined == path + ['?'] + query
  {
    assert JoinPath(base, rel) + [] == JoinPath(base, rel);
  }

  // ---------------------------------------------------------------------------------------
  // No dot segments survive, whatever the input
  // ---------------------------------------------------------------------------------------

  /** A prefix that ends with a slash has the segments of the whole text. */
  lemma PrefixNoDots(s: string, r: string)
    requires NoDotSegments(s) && r <= s && EndsWithSlash(r)
    ensures NoDotSegments(r)
  {
    forall i, j | SegmentAt(r, i, j)
      ensures r[i..j] != "." && r[i..j] != ".."
    {
      if j < |r| {
        assert r[i..j] == s[i..j];
        assert SegmentAt(s, i, j);
      }
    }
  }

  /** Writing one whole segment after a slash. */
  lemma AppendNoDots(d: string, seg: string)
    requires NoDotSegments(d) && EndsWithSlash(d)
    requires NoSlash(seg) && seg != "." && seg != ".."
    ensures NoDotSegments(d + seg) && NoDotSegments(d + seg + "/")
  {
    var t := d + seg + "/";
    assert forall k :: 0 <= k < |d| ==> t[k] == d[k];
    forall i, j | SegmentAt(t, i, j)
      ensures t[i..j] != "." && t[i..j] != ".."
    {
      if j < |d| {
        assert t[i..j] == d[i..j];
        assert SegmentAt(d, i, j);
      } else if j < |t| {
        assert t[|d| - 1] == '/' && t[|d| + |seg|] == '/';
        assert forall k :: |d| <= k < |d| + |seg| ==> t[k] == seg[k - |d|];
        assert t[i..j] == seg;
      } else {
        assert t[|t| - 1] == '/';
      }
    }
    var u := d + seg;
    forall i, j | SegmentAt(u, i, j)
      ensures u[i..j] != "." && u[i..j] != ".."
    {
      assert u[i..j] == t[i..j];
      assert SegmentAt(t, i, j);
    }
  }

  lemma PutNoDots(rel: string, out: string)
    requires rel != [] && Rooted(out) && NoDotSegments(out)
    ensures Rooted(Put(Head(rel), out)) && NoDotSegments(Put(Head(rel), out))
  {
    var h, k := Head(rel), FindSlash(rel);
    if IsDotDot(h) {
      PrefixNoDots(out, EatDir(out));
    } else if !IsDot(h) {
      PrefixNoDots(out, EatFile(out));
      assert h == rel[..k] || h == rel[..k] + "/";
      AppendNoDots(EatFile(out), rel[..k]);
      assert EatFile(out) + rel[..k] + "/" == EatFile(out) + (rel[..k] + "/");
    }
  }

  lemma {:induction false} WalkNoDots(rel: string, out: string)
    requires Rooted(out) && NoDotSegments(out)
    ensures Rooted(Walk(rel, out)) && NoDotSegments(Walk(rel, out))
    decreases |rel|
  {
    if rel != [] {
      PutNoDots(rel, out);
      WalkNoDots(Tail(rel), Put(Head(rel), out));
    }
  }

  lemma SlashNoDots()
    ensures Rooted("/") && NoDotSegments("/")
  {
  }

  /** For every relative path and every base that is empty or rooted and free of dot segments,
      the result is rooted and free of dot segments. */
  lemma JoinHasNoDotSegments(base: string, rel: string)
    requires base == [] || (Rooted(base) && NoDotSegments(base))
    ensures Rooted(JoinPath(base, rel)) && NoDotSegments(JoinPath(base, rel))
  {
    SlashNoDots();
    if rel != [] {
      if rel[0] == '/' {
        WalkNoDots(SkipSlashes(rel), "/");
      } else {
        WalkNoDots(rel, if base == [] then "/" else base);
      }
    }
  }

  // ---------------------------------------------------------------------------------------
  // Section 5.2.4 of RFC 3986
  // ---------------------------------------------------------------------------------------

  /** Removes the last segment and the slash before it. */
  function RemoveLast(out: string): string {
    var d := DirLen(out);
    if d == 0 then [] else out[..d - 1]
  }

  datatype Buffers = Buffers(input: string, out: string)

  /** The text starts with "./". */
  predicate DotSlash(s: string) {
    |s| >= 2 && s[0] == '.' && s[1] == '/'
  }

  /** The text starts with "../". */
  predicate DotDotSlash(s: string) {
    |s| >= 3 && s[0] == '.' && s[1] == '.' && s[2] == '/'
  }

  /** One of the steps 2A to 2E of the RFC, on its input buffer and output buffer. */
  function RfcStep(input: string, out: string): (b: Buffers)
    requires input != []
    ensures |b.input| < |input|
  {
    if DotDotSlash(input) then Buffers(input[3..], out)
    else if DotSlash(input) then Buffers(input[2..], out)
    else if input[0] == '/' && DotSlash(input[1..]) then Buffers(input[2..], out)
    else if input == "/." then Buffers("/", out)
    else if input[0] == '/' && DotDotSlash(input[1..]) then Buffers(input[3..], RemoveLast(out))
    else if input == "/.." then Buffers("/", RemoveLast(out))
    else if input == "." || input == ".." then Buffers([], out)
    else
      var k := 1 + FindSlash(input[1..]);
      Buffers(input[k..], out + input[..k])
  }

  function RemoveDotSegments(input: string, out: string): string
    decreases |input|
  {
    if input == [] then out
    else RemoveDotSegments(RfcStep(input, out).input, RfcStep(input, out).out)
  }

  /** The one thing the code does beyond the RFC: a run of slashes that follows a copied
      segment is read as one slash. */
  function Squeeze(rel: string): (r: string)
    decreases |rel|
  {
    if rel == [] then [] else Head(rel) + Squeeze(Tail(rel))
  }

  lemma {:induction false} SqueezeIsIdentity(rel: string)
    requires NoDoubleSlash(rel)
    ensures Squeeze(rel) == rel
    decreases |rel|
  {
    if rel != [] {
      var h := Head(rel);
      assert rel == h + rel[|h|..];
      assert Tail(rel) == rel[|h|..] by {
        if |h| < |rel| { assert h[|h| - 1] == rel[|h| - 1] == '/' && rel[|h|] != '/'; }
      }
      SqueezeIsIdentity(rel[|h|..]);
    }
  }

  /** Eating a directory of `out/` is RFC's RemoveLast of `out`, followed by a slash. */
  lemma EatDirIsRemoveLast(out: string)
    requires out == [] || Rooted(out)
    ensures EatDir(out + "/") == RemoveLast(out) + "/"
    ensures RemoveLast(out) == [] || Rooted(RemoveLast(out))
  {
    var e := EatFile(out + "/");
    assert e == out + "/";
    assert e[..|e| - 1] == out;
    if out != [] {
      DirLenPositive(out);
    }
  }

  lemma {:induction false} DirLenPositive(s: string)
    requires Rooted(s)
    ensures DirLen(s) > 0
  {
    if s[|s| - 1] != '/' {
      DirLenPositive(s[..|s| - 1]);
    }
  }

  lemma {:induction false} FindSlashOf(seg: string, rest: string)
    requires NoSlash(seg)
    requires rest == [] || rest[0] == '/'
    ensures FindSlash(seg + rest) == |seg|
  {
    if seg == [] {
      assert seg + rest == rest;
    } else {
      assert (seg + rest)[1..] == seg[1..] + rest;
      FindSlashOf(seg[1..], rest);
    }
  }

  /** The first segment of a text that is given by its parts. */
  lemma TextOf(seg: string, rest: string, text: string)
    requires NoSlash(seg) && text == seg + "/" + rest
    ensures text != [] && Head(text) == seg + "/"
    ensures Tail(text) == if IsDot(seg + "/") || IsDotDot(seg + "/") then rest else SkipSlashes(rest)
  {
    FindSlashOf(seg, "/" + rest);
    assert text == seg + ("/" + rest);
    assert text[..|seg| + 1] == seg + "/" && text[|seg| + 1..] == rest;
  }

  lemma AfterSlash(s: string)
    requires s != [] && s[0] != '/'
    ensures SkipSlashes("/" + s) == s
  {
    assert ("/" + s)[1..] == s;
  }

  /** Text that starts with an ordinary segment does not start with a dot segment. */
  lemma OrdinaryStart(seg: string, rest: string)
    requires NoSlash(seg) && seg != "." && seg != ".."
    requires rest == [] || rest[0] == '/'
    ensures var t := seg + rest; t != "." && t != ".." && !DotSlash(t) && !DotDotSlash(t)
  {
    FindSlashOf(seg, rest);
    assert (seg + rest)[..|seg|] == seg;
  }

  /** Step 2E of the RFC on "/seg" followed by nothing or a slash. */
  lemma SegmentStep(seg: string, rest: string, out: string)
    requires NoSlash(seg) && seg != "." && seg != ".."
    requires rest == [] || rest[0] == '/'
    ensures RfcStep("/" + (seg + rest), out) == Buffers(rest, out + "/" + seg)
  {
    hide DirLen;
    hide FindSlash;
    var input := "/" + (seg + rest);
    assert input[1..] == seg + rest;
    OrdinaryStart(seg, rest);
    FindSlashOf(seg, rest);
    var k := 1 + |seg|;
    assert input[..k] == "/" + seg && input[k..] == rest;
    assert out + input[..k] == out + "/" + seg;
  }

  /** Steps 2B and 2C of the RFC. */
  lemma DotSteps(x: string, out: string)
    ensures RfcStep("/" + ("./" + x), out) == Buffers("/" + x, out)
    ensures RfcStep("/" + ("../" + x), out) == Buffers("/" + x, RemoveLast(out))
  {
    var a, b := "/" + ("./" + x), "/" + ("../" + x);
    assert a[1..] == "./" + x && a[2..] == "/" + x;
    assert b[1..] == "../" + x && b[3..] == "/" + x;
  }

  /** What one segment with its slash does to the RFC's output buffer. */
  function RfcPut(seg: string, out: string): string {
    if seg == "." then out else if seg == ".." then RemoveLast(out) else out + "/" + seg
  }

  lemma RfcPutStep(seg: string, x: string, out: string)
    requires NoSlash(seg)
    ensures RfcStep("/" + ((seg + "/") + x), out) == Buffers("/" + x, RfcPut(seg, out))
  {
    hide RfcStep;
    hide DirLen;
    hide FindSlash;
    if seg == "." {
      assert seg + "/" == "./";
      DotSteps(x, out);
    } else if seg == ".." {
      assert seg + "/" == "../";
      DotSteps(x, out);
    } else {
      SegmentStep(seg, "/" + x, out);
      assert (seg + "/") + x == seg + ("/" + x);
    }
  }

  /** One segment does the same to `out/` in the code and to `out` in the RFC. */
  lemma PutIsRfcPut(seg: string, out: string)
    requires NoSlash(seg) && (out == [] || Rooted(out))
    ensures Put(seg + "/", out + "/") == RfcPut(seg, out) + "/"
    ensures RfcPut(seg, out) == [] || Rooted(RfcPut(seg, out))
  {
    hide DirLen;
    if seg == ".." {
      EatDirIsRemoveLast(out);
    } else if seg != "." {
      PutOrdinary(seg, "/", out);
    }
  }

  lemma PutOrdinary(seg: string, slash: string, out: string)
    requires NoSlash(seg) && seg != "." && seg != ".." && (slash == [] || slash == "/")
    ensures Put(seg + slash, out + "/") == out + "/" + seg + slash
  {
    hide DirLen;
    OrdinaryStart(seg, slash);
    assert !IsDot(seg + slash) && !IsDotDot(seg + slash);
    EatFileOfDir(out + "/");
  }

  lemma EatFileOfDir(s: string)
    requires EndsWithSlash(s)
    ensures EatFile(s) == s
  {
  }

  lemma Unfold(input: string, out: string, b: Buffers)
    requires input != [] && RfcStep(input, out) == b
    ensures RemoveDotSegments(input, out) == RemoveDotSegments(b.input, b.out)
  {
  }

  lemma LastSlash(out: string)
    ensures RemoveDotSegments("/", out) == out + "/"
  {
    SegmentStep([], [], out);
    assert "/" + ([] + []) == "/";
    assert out + "/" + [] == out + "/";
  }

  /** A last segment, without a slash. */
  lemma LastSegment(seg: string, out: string)
    requires seg != [] && NoSlash(seg) && (out == [] || Rooted(out))
    ensures RemoveDotSegments("/" + seg, out) == Put(seg, out + "/")
  {
    hide RfcStep;
    hide DirLen;
    hide FindSlash;
    hide RemoveDotSegments;
    if seg == "." {
      DotLast(out);
      Unfold("/.", out, Buffers("/", out));
      assert "/" + seg == "/.";
      LastSlash(out);
    } else if seg == ".." {
      DotLast(out);
      Unfold("/..", out, Buffers("/", RemoveLast(out)));
      assert "/" + seg == "/..";
      LastSlash(RemoveLast(out));
      EatDirIsRemoveLast(out);
    } else {
      assert seg + [] == seg;
      SegmentStep(seg, [], out);
      Unfold("/" + seg, out, Buffers([], out + "/" + seg));
      PutOrdinary(seg, [], out);
      Finished(out + "/" + seg);
    }
  }

  lemma DotLast(out: string)
    ensures RfcStep("/.", out) == Buffers("/", out)
    ensures RfcStep("/..", out) == Buffers("/", RemoveLast(out))
  {
  }

  lemma Finished(out: string)
    ensures RemoveDotSegments([], out) == out
  {
  }

  lemma SqueezeUnfold(rel: string)
    requires rel != []
    ensures Squeeze(rel) == Head(rel) + Squeeze(Tail(rel))
    ensures NoSlash(rel) ==> Squeeze(rel) == rel == Head(rel)
  {
  }

  lemma TakeOneMore(s: string, k: nat)
    requires k < |s|
    ensures s[..k + 1] == s[..k] + [s[k]]
  {
  }

  lemma HeadWithSlash(rel: string)
    requires FindSlash(rel) < |rel|
    ensures Head(rel) == rel[..FindSlash(rel)] + "/"
  {
    TakeOneMore(rel, FindSlash(rel));
  }

  lemma WalkUnfold(rel: string, out: string)
    requires out != [] && rel != []
    ensures Walk(rel, out) == Walk(Tail(rel), Put(Head(rel), out))
    ensures NoSlash(rel) ==> Walk(rel, out) == Put(rel, out)
  {
  }

  /** The loop started on `out/` is the RFC algorithm on "/" plus the squeezed input. */
  lemma {:induction false} WalkIsRemoveDotSegments(rel: string, out: string)
    requires out == [] || Rooted(out)
    ensures Walk(rel, out + "/") == RemoveDotSegments("/" + Squeeze(rel), out)
    decreases |rel|
  {
    hide DirLen;
    hide FindSlash;
    hide SkipSlashes;
    hide Head;
    hide RemoveDotSegments;
    hide RfcStep;
    hide Put;
    if rel == [] {
      LastSlash(out);
      assert "/" + Squeeze(rel) == "/";
    } else {
      SqueezeUnfold(rel);
      WalkUnfold(rel, out + "/");
      var k := FindSlash(rel);
      if k == |rel| {
        assert rel[..k] == rel;
        LastSegment(rel, out);
      } else {
        var seg, x := rel[..k], Squeeze(Tail(rel));
        HeadWithSlash(rel);
        RfcPutStep(seg, x, out);
        PutIsRfcPut(seg, out);
        Unfold("/" + ((seg + "/") + x), out, Buffers("/" + x, RfcPut(seg, out)));
        WalkIsRemoveDotSegments(Tail(rel), RfcPut(seg, out));
      }
    }
  }

  /** `rel` as an absolute path. */
  function Absolute(rel: string): string {
    "/" + (if Rooted(rel) then rel[1..] else rel)
  }

  /** With no base, for every input: the result is what the RFC makes of the input whose slash
      runs at the start and after ordinary segments are read as one slash. */
  lemma JoinIsRfcOfSqueezed(rel: string)
    ensures JoinPath([], rel) == RemoveDotSegments("/" + Squeeze(SkipSlashes(rel)), [])
  {
    WalkIsRemoveDotSegments(SkipSlashes(rel), []);
    assert [] + "/" == "/";
  }

  /** With no base and no two adjacent slashes, the result is exactly the RFC's. */
  lemma JoinIsRfc(rel: string)
    requires NoDoubleSlash(rel)
    ensures JoinPath([], rel) == RemoveDotSegments(Absolute(rel), [])
  {
    JoinIsRfcOfSqueezed(rel);
    var t := if Rooted(rel) then rel[1..] else rel;
    assert SkipSlashes(rel) == t;
    SqueezeIsIdentity(t);
  }

  /** Without that hypothesis the two differ: the RFC keeps the empty segment. */
  lemma DoubleSlashDiffers()
    ensures JoinPath([], "a//b") == "/a/b"
    ensures RemoveDotSegments(Absolute("a//b"), []) == "/a//b"
  {
    hide RemoveDotSegments;
    hide Walk;
    DoubleSlashInCode();
    CopyStep("a", "//b", []);
    CopyStep([], "/b", "/a");
    CopyStep("b", [], "/a/");
    Finished("/a//b");
    assert "/" + ("a" + "//b") == Absolute("a//b");
    assert "/" + ([] + "/b") == "//b";
    assert "/" + ("b" + []) == "/b";
    assert [] + "/" + "a" == "/a" && "/a" + "/" + [] == "/a/" && "/a/" + "/" + "b" == "/a//b";
  }

  lemma DoubleSlashInCode()
    ensures Walk("a//b", "/") == "/a/b"
  {
    hide Walk;
    hide EatDir;
    hide DirLen;
    var rel := "a//b";
    FindSlashOf("a", "//b");
    FindSlashOf("b", []);
    assert "a" + "//b" == rel && "b" + [] == "b";
    assert Head(rel) == "a/" && Head("b") == "b";
    assert rel[2..] == "/b" && "/b"[1..] == "b";
    assert SkipSlashes("/b") == SkipSlashes("b") == "b";
    assert "/" + "a/" == "/a/" && "/a/" + "b" == "/a/b";
    WalkOrdinary(rel, "/");
    WalkOrdinary("b", "/a/");
  }

  /** After a slash, an ordinary segment is copied. */
  lemma WalkOrdinary(rel: string, out: string)
    requires rel != [] && EndsWithSlash(out) && !IsDot(Head(rel)) && !IsDotDot(Head(rel))
    ensures Walk(rel, out) == Walk(Tail(rel), out + Head(rel))
    ensures |Head(rel)| == |rel| ==> Walk(rel, out) == out + rel
  {
    EatFileOfDir(out);
  }

  lemma CopyStep(seg: string, rest: string, out: string)
    requires NoSlash(seg) && seg != "." && seg != ".."
    requires rest == [] || rest[0] == '/'
    ensures RemoveDotSegments("/" + (seg + rest), out) == RemoveDotSegments(rest, out + "/" + seg)
  {
    hide RfcStep;
    SegmentStep(seg, rest, out);
  }

  // ---------------------------------------------------------------------------------------
  // A relative path joined to a base
  // ---------------------------------------------------------------------------------------

  /** The RFC copies a dot-free prefix that ends with a slash, except that slash. */
  lemma {:induction false} RfcCopiesPrefix(dir: string, x: string, out: string)
    requires Rooted(dir) && EndsWithSlash(dir) && NoDotSegments(dir)
    ensures RemoveDotSegments(dir + x, out) == RemoveDotSegments("/" + x, out + dir[..|dir| - 1])
    decreases |dir|
  {
    hide RemoveDotSegments;
    hide FindSlash;
    if |dir| == 1 {
      assert dir == "/" && out + dir[..0] == out;
    } else {
      var k := FindSlash(dir[1..]);
      var seg, rest := dir[1..][..k], dir[1 + k..];
      assert dir[1..][|dir| - 2] == '/';
      assert NoSlash(seg) && rest[0] == '/';
      assert seg == dir[1..1 + k] && SegmentAt(dir, 1, 1 + k);
      SuffixNoDots(dir, 1 + k);
      assert dir + x == "/" + (seg + (rest + x));
      CopyStep(seg, rest + x, out);
      RfcCopiesPrefix(rest, x, out + "/" + seg);
      assert out + "/" + seg + rest[..|rest| - 1] == out + dir[..|dir| - 1];
    }
  }

  lemma SuffixNoDots(s: string, n: nat)
    requires NoDotSegments(s) && n < |s| && s[n] == '/'
    ensures NoDotSegments(s[n..])
  {
    var t := s[n..];
    forall i, j | SegmentAt(t, i, j)
      ensures t[i..j] != "." && t[i..j] != ".."
    {
      if j > 0 {
        assert i > 0 by { if i == 0 { assert t[0] == '/'; } }
        assert forall k :: 0 <= k < |t| ==> t[k] == s[n + k];
        assert s[n + i - 1] == t[i - 1];
        assert SegmentAt(s, n + i, n + j);
        assert t[i..j] == s[n + i..n + j];
      }
    }
  }

  /** `rel` consists of "." segments only, so the loop never writes. */
  predicate OnlyDots(rel: string)
    decreases |rel|
  {
    rel == [] || (IsDot(Head(rel)) && OnlyDots(Tail(rel)))
  }

  lemma {:induction false} OnlyDotsKeeps(rel: string, out: string)
    requires out != [] && OnlyDots(rel)
    ensures Walk(rel, out) == out
    decreases |rel|
  {
    if rel != [] {
      OnlyDotsKeeps(Tail(rel), out);
    }
  }

  /** Otherwise the file name of the base is dropped before anything is written. */
  lemma {:induction false} FileNameIsDropped(rel: string, base: string)
    requires Rooted(base) && !OnlyDots(rel)
    ensures Walk(rel, base) == Walk(rel, EatFile(base))
    decreases |rel|
  {
    hide DirLen;
    EatFileOfDir(EatFile(base));
    if IsDot(Head(rel)) {
      FileNameIsDropped(Tail(rel), base);
    } else {
      assert EatDir(base) == EatDir(EatFile(base));
    }
  }

  /** The merge of section 5.2.3 of RFC 3986: all of the base up to its last slash, then `rel`. */
  function Merge(base: string, rel: string): string {
    base[..DirLen(base)] + rel
  }

  /** With a base and for every `rel`, the result is the RFC's for the squeezed `rel` if and only if the base ends
      with a slash or `rel` is more than "." segments; otherwise the code keeps the file name of the base. */
  lemma JoinIsRfcMergeIff(base: string, rel: string)
    requires Rooted(base) && NoDotSegments(base)
    requires rel != [] && !Rooted(rel)
    ensures JoinPath(base, rel) == RemoveDotSegments(Merge(base, Squeeze(rel)), [])
            <==> EndsWithSlash(base) || !OnlyDots(rel)
  {
    hide RemoveDotSegments;
    hide Walk;
    DirLenPositive(base);
    var dir := EatFile(base);
    var out := dir[..|dir| - 1];
    PrefixNoDots(base, dir);
    RfcCopiesPrefix(dir, Squeeze(rel), []);
    assert [] + out == out && out + "/" == dir;
    WalkIsRemoveDotSegments(rel, out);
    assert RemoveDotSegments(Merge(base, Squeeze(rel)), []) == Walk(rel, dir);
    if OnlyDots(rel) {
      OnlyDotsKeeps(rel, base);
      OnlyDotsKeeps(rel, dir);
      EatFileOfDir(dir);
      if EndsWithSlash(base) { EatFileOfDir(base); }
    } else {
      FileNameIsDropped(rel, base);
    }
  }

  /** Joining "." to "/a/b" gives "/a/b", and "/a/" by the RFC. */
  lemma FileNameIsKept()
    ensures JoinPath("/a/b", ".") == "/a/b"
    ensures RemoveDotSegments(Merge("/a/b", Squeeze(".")), []) == "/a/"
  {
    hide Walk;
    hide RemoveDotSegments;
    FindSlashOf(".", []);
    assert "." + [] == "." && Head(".") == "." && "."[1..] == [];
    assert OnlyDots(".");
    OnlyDotsKeeps(".", "/a/b");
    DirLenIsThree();
    assert Squeeze(".") == "." && "/a/b"[..3] == "/a/" && Merge("/a/b", ".") == "/a/" + ".";
    SlashNoDots();
    AppendNoDots("/", "a");
    assert "/" + "a" + "/" == "/a/";
    RfcCopiesPrefix("/a/", ".", []);
    assert [] + "/a/"[..2] == "/a";
    LastSegment(".", "/a");
  }

  lemma DirLenIsThree()
    ensures DirLen("/a/b") == 3
  {
    assert "/a/b"[..3] == "/a/";
  }

  // ---------------------------------------------------------------------------------------
  // Fixed points: the test by which the server decides to redirect
  // ---------------------------------------------------------------------------------------

  /** The path the server compares the request path with. */
  function Clean(path: string): string {
    JoinPath([], path)
  }

  /** Without double slashes and dot segments the loop copies. */
  lemma {:induction false} WalkCopies(rel: string, out: string)
    requires EndsWithSlash(out) && NoDotSegments(rel) && NoDoubleSlash(rel)
    ensures Walk(rel, out) == out + rel
    decreases |rel|
  {
    hide DirLen;
    hide FindSlash;
    hide SkipSlashes;
    hide Put;
    hide Head;
    hide Tail;
    hide NoDotSegments;
    if rel != [] {
      var h := Head(rel);
      HeadIsOrdinary(rel);
      WalkOrdinary(rel, out);
      HeadFacts(rel);
      if |h| < |rel| {
        var t := rel[|h|..];
        TailWithoutRuns(rel);
        assert rel == h + t;
        TailNoDots(rel, |h|);
        WalkCopies(t, out + h);
        assert out + h + t == out + rel;
      }
    }
  }

  lemma TailWithoutRuns(rel: string)
    requires rel != [] && NoDoubleSlash(rel) && |Head(rel)| < |rel|
    ensures Tail(rel) == rel[|Head(rel)|..]
  {
    HeadFacts(rel);
    var n := |Head(rel)|;
    assert rel[n - 1] == '/';
    assert rel[n..][0] == rel[n];
  }

  lemma HeadIsOrdinary(rel: string)
    requires rel != [] && NoDotSegments(rel)
    ensures !IsDot(Head(rel)) && !IsDotDot(Head(rel))
  {
    var k := FindSlash(rel);
    assert SegmentAt(rel, 0, k);
    assert rel[0..k] == rel[..k];
  }

  lemma TailNoDots(s: string, n: nat)
    requires NoDotSegments(s) && 0 < n <= |s| && s[n - 1] == '/'
    ensures NoDotSegments(s[n..])
  {
    var t := s[n..];
    assert forall k :: 0 <= k < |t| ==> t[k] == s[n + k];
    forall i, j | SegmentAt(t, i, j)
      ensures t[i..j] != "." && t[i..j] != ".."
    {
      assert i == 0 || s[n + i - 1] == t[i - 1];
      assert SegmentAt(s, n + i, n + j);
      assert t[i..j] == s[n + i..n + j];
    }
  }

  /** Without dot segments, all slash runs of the input are collapsed. */
  lemma {:induction false} WalkCollapses(rel: string, out: string)
    requires EndsWithSlash(out) && NoDoubleSlash(out)
    requires NoDotSegments(rel) && (rel == [] || rel[0] != '/')
    ensures NoDoubleSlash(Walk(rel, out))
    decreases |rel|
  {
    hide DirLen;
    hide FindSlash;
    hide SkipSlashes;
    hide Put;
    hide Head;
    hide Tail;
    hide NoDotSegments;
    hide NoDoubleSlash;
    if rel != [] {
      var h, t := Head(rel), Tail(rel);
      HeadIsOrdinary(rel);
      WalkOrdinary(rel, out);
      HeadFacts(rel);
      TailFacts(rel);
      AppendNoDouble(out, h);
      if |h| < |rel| {
        TailNoDots(rel, |rel| - |t|);
        WalkCollapses(t, out + h);
      } else {
        assert h == rel;
      }
    }
  }

  lemma AppendNoDouble(out: string, h: string)
    requires NoDoubleSlash(out) && h != [] && h[0] != '/' && NoSlash(h[..|h| - 1])
    ensures NoDoubleSlash(out + h)
  {
    assert forall k :: 0 <= k < |h| - 1 ==> h[k] == h[..|h| - 1][k] != '/';
  }

  /** A path is left alone exactly when it is canonical; every other path is redirected. */
  lemma FixedPointIffCanonical(path: string)
    ensures Clean(path) == path <==> Canonical(path)
  {
    hide Walk;
    hide NoDotSegments;
    JoinHasNoDotSegments([], path);
    if Canonical(path) {
      assert SkipSlashes(path) == path[1..];
      TailNoDots(path, 1);
      assert NoDoubleSlash(path[1..]);
      WalkCopies(path[1..], "/");
      assert "/" + path[1..] == path;
    } else if Clean(path) == path {
      CleanOfDotFree(path);
    }
  }

  lemma CleanOfDotFree(path: string)
    requires Rooted(path) && NoDotSegments(path)
    ensures Canonical(Clean(path))
  {
    hide Walk;
    hide NoDotSegments;
    JoinHasNoDotSegments([], path);
    var rest := SkipSlashes(path);
    SkipSlashesFacts(path);
    TailNoDots(path, |path| - |rest|);
    WalkCollapses(rest, "/");
  }

  /** One redirect may not be enough, but a second target is always canonical: the server
      never answers a third redirect. */
  lemma TwoRedirectsSuffice(path: string)
    ensures Canonical(Clean(Clean(path)))
    ensures Clean(Clean(Clean(path))) == Clean(Clean(path))
  {
    JoinHasNoDotSegments([], path);
    CleanOfDotFree(Clean(path));
    FixedPointIffCanonical(Clean(Clean(path)));
  }

  // ---------------------------------------------------------------------------------------
  // The code itself: one buffer, one write cursor
  // ---------------------------------------------------------------------------------------

  lemma {:induction false} DirLenIs(s: string, d: nat)
    requires d <= |s| && (d == 0 || s[d - 1] == '/')
    requires forall k :: d <= k < |s| ==> s[k] != '/'
    ensures DirLen(s) == d
  {
    if d < |s| {
      DirLenIs(s[..|s| - 1], d);
    }
  }

  method EatFileAt(buf: array<char>, last: nat) returns (p: nat)
    requires last <= buf.Length && 0 < buf.Length
    modifies buf
    ensures 0 < p <= buf.Length && p <= last + 1
    ensures buf[..p] == EatFile(old(buf[..last]))
  {
    if last == 0 {
      buf[0] := '/';
      return 1;
    }
    if buf[last - 1] == '/' {
      return last;
    }
    p := last;
    while p != 0 && buf[p - 1] != '/'
      invariant p <= last
      invariant forall k :: p <= k < last ==> buf[k] != '/'
      invariant buf[..] == old(buf[..])
    {
      p := p - 1;
    }
    DirLenIs(buf[..last], p);
    if p == 0 {
      buf[0] := '/';
      return 1;
    }
    assert buf[..p] == buf[..last][..p];
  }

  method EatDirAt(buf: array<char>, last: nat) returns (p: nat)
    requires last <= buf.Length && 0 < buf.Length
    modifies buf
    ensures 0 < p <= buf.Length && p <= last + 1
    ensures buf[..p] == EatDir(old(buf[..last]))
  {
    p := EatFileAt(buf, last);
    ghost var e := buf[..p];
    p := p - 1;
    assert buf[p] == e[p] == '/';
    assert buf[..p] == e[..p];
    p := EatFileAt(buf, p);
  }

  /** std::copy of a string to the cursor. */
  method CopyTo(buf: array<char>, p: nat, s: string) returns (q: nat)
    requires p + |s| <= buf.Length
    modifies buf
    ensures q == p + |s|
    ensures buf[..q] == old(buf[..p]) + s
  {
    forall i | 0 <= i < |s| {
      buf[p + i] := s[i];
    }
    q := p + |s|;
  }

  /** What the branches of the loop test, in terms of the first segment. */
  lemma DotBranches(rest: string)
    requires rest != [] && rest[0] == '.'
    ensures |rest| == 1 ==> Head(rest) == rest && IsDot(rest)
    ensures |rest| > 1 && rest[1] == '/' ==> IsDot(Head(rest)) && Tail(rest) == rest[2..]
    ensures |rest| == 2 && rest[1] == '.' ==> Head(rest) == rest && IsDotDot(rest)
    ensures |rest| > 2 && rest[1] == '.' && rest[2] == '/' ==> IsDotDot(Head(rest)) && Tail(rest) == rest[3..]
  {
    hide SkipSlashes;
    assert |rest| > 1 && rest[1] == '/' ==> FindSlash(rest) == 1;
    assert |rest| > 2 && rest[1] == '.' && rest[2] == '/' ==> FindSlash(rest) == 2;
  }

  /** No branch was taken: the segment is ordinary. */
  lemma OrdinaryBranch(rest: string)
    requires rest != []
    requires rest[0] == '.' && |rest| > 1 ==> rest[1] != '/'
    requires rest[0] == '.' ==> |rest| > 1
    requires rest[0] == '.' && rest[1] == '.' ==> |rest| > 2 && rest[2] != '/'
    ensures !IsDot(Head(rest)) && !IsDotDot(Head(rest))
    ensures Tail(rest) == SkipSlashes(rest[|Head(rest)|..])
  {
    hide SkipSlashes;
    HeadFacts(rest);
  }

  /** The loop that passes over repeated slashes. */
  method SkipSlashesFrom(rel: string, from: nat) returns (first: nat)
    requires from <= |rel|
    ensures from <= first <= |rel|
    ensures rel[first..] == SkipSlashes(rel[from..])
  {
    first := from;
    while first != |rel| && rel[first] == '/'
      invariant from <= first <= |rel|
      invariant SkipSlashes(rel[first..]) == SkipSlashes(rel[from..])
    {
      assert rel[first..][1..] == rel[first + 1..];
      first := first + 1;
    }
  }

  /** The end of the loop body: an ordinary segment is copied over the last file name.
      Breaking out of the loop is reported as first == |rel|. */
  method CopySegment(buf: array<char>, p0: nat, rel: string, first0: nat) returns (p: nat, first: nat)
    requires 0 < p0 && first0 < |rel| && p0 + (|rel| - first0) <= buf.Length
    requires !IsDot(Head(rel[first0..])) && !IsDotDot(Head(rel[first0..]))
    requires Tail(rel[first0..]) == SkipSlashes(rel[first0..][|Head(rel[first0..])|..])
    modifies buf
    ensures first0 < first <= |rel| && 0 < p <= p0 + (first - first0)
    ensures Walk(rel[first..], buf[..p]) == Walk(rel[first0..], old(buf[..p0]))
  {
    hide Walk;
    hide Put;
    hide Head;
    hide Tail;
    hide EatFile;
    hide FindSlash;
    hide SkipSlashes;
    hide NoSlash;
    ghost var rest, out := rel[first0..], buf[..p0];
    WalkStep(rest, out);
    p := p0;
    if buf[p - 1] != '/' {
      p := EatFileAt(buf, p);
    } else {
      EatFileOfDir(out);
    }
    var slash := first0 + FindSlash(rel[first0..]);
    if slash == |rel| {
      WalkLastOrdinary(rest, out);
      p := CopyTo(buf, p, rel[first0..]);
      first := |rel|;
      WalkNothing(buf[..p]);
      assert rel[first..] == [];
    } else {
      HeadIsToSlash(rel, first0);
      p := CopyTo(buf, p, rel[first0..slash + 1]);
      first := SkipSlashesFrom(rel, slash + 1);
    }
  }

  /** The loop over the segments of `rel`. */
  method WalkBuffer(buf: array<char>, p0: nat, rel: string, first0: nat) returns (p: nat)
    requires 0 < p0 && first0 <= |rel| && p0 + (|rel| - first0) <= buf.Length
    modifies buf
    ensures 0 < p <= p0 + (|rel| - first0)
    ensures buf[..p] == Walk(rel[first0..], old(buf[..p0]))
  {
    hide Walk;
    hide Put;
    hide Head;
    hide Tail;
    hide EatFile;
    hide EatDir;
    hide FindSlash;
    hide SkipSlashes;
    hide NoSlash;
    var first := first0;
    p := p0;
    ghost var goal := Walk(rel[first..], buf[..p]);
    while first != |rel|
      invariant first0 <= first <= |rel|
      invariant 0 < p <= p0 + (first - first0)
      invariant Walk(rel[first..], buf[..p]) == goal
    {
      ghost var rest, out := rel[first..], buf[..p];
      WalkStep(rest, out);
      if rel[first] == '.' {
        DotBranches(rest);
        if first + 1 == |rel| {
          WalkLastDot(rest, out);
          break;
        }
        if rel[first + 1] == '/' {
          first := first + 2;
          continue;
        }
        if rel[first + 1] == '.' {
          if first + 2 == |rel| {
            WalkLastDot(rest, out);
            p := EatDirAt(buf, p);
            break;
          }
          if rel[first + 2] == '/' {
            p := EatDirAt(buf, p);
            first := first + 3;
            continue;
          }
        }
      }
      OrdinaryBranch(rest);
      p, first := CopySegment(buf, p, rel, first);
      WalkNothing(buf[..p]);
    }
    WalkNothing(buf[..p]);
  }

  lemma WalkNothing(out: string)
    requires out != []
    ensures Walk([], out) == out
  {
  }

  lemma HeadIsToSlash(rel: string, first: nat)
    requires first < |rel| && FindSlash(rel[first..]) < |rel| - first
    ensures var slash := first + FindSlash(rel[first..]);
            && Head(rel[first..]) == rel[first..slash + 1]
            && rel[first..][|Head(rel[first..])|..] == rel[slash + 1..]
  {
    hide FindSlash;
    hide NoSlash;
  }

  lemma WalkStep(rest: string, out: string)
    requires rest != [] && out != []
    ensures IsDot(Head(rest)) ==> Walk(rest, out) == Walk(Tail(rest), out)
    ensures IsDotDot(Head(rest)) ==> Walk(rest, out) == Walk(Tail(rest), EatDir(out))
    ensures !IsDot(Head(rest)) && !IsDotDot(Head(rest))
            ==> Walk(rest, out) == Walk(Tail(rest), EatFile(out) + Head(rest))
    ensures |EatDir(out)| <= |out| && |EatFile(out)| <= |out|
  {
  }

  lemma WalkLastDot(rest: string, out: string)
    requires rest != [] && out != [] && Head(rest) == rest
    ensures IsDot(rest) ==> Walk(rest, out) == out
    ensures IsDotDot(rest) ==> Walk(rest, out) == EatDir(out)
  {
    HeadFacts(rest);
    assert rest[|rest|..] == [];
  }

  lemma WalkLastOrdinary(rest: string, out: string)
    requires rest != [] && out != [] && FindSlash(rest) == |rest|
    requires !IsDot(Head(rest)) && !IsDotDot(Head(rest))
    ensures Walk(rest, out) == EatFile(out) + rest
  {
    assert rest[|rest|..] == [];
  }

  /** The buffer size the code computes before it writes anything. */
  function BufferSize(base: string, baseQuery: string, rel: string, relQuery: string): nat {
    Max(1, |base|) + |rel| + 1 + Max(|baseQuery|, |relQuery|) + 1
  }

  /** Appends "?" and the query, unless it is empty, and the final NUL. */
  method FinishWithQuery(buf: array<char>, p0: nat, query: string) returns (p: nat)
    requires p0 + 1 + |query| < buf.Length
    modifies buf
    ensures p < buf.Length && buf[p] == '\0'
    ensures buf[..p] == old(buf[..p0]) + Query(query)
  {
    p := p0;
    if query != [] {
      buf[p] := '?';
      assert buf[..p0 + 1] == old(buf[..p0]) + "?";
      p := CopyTo(buf, p + 1, query);
      assert old(buf[..p0]) + "?" + query == old(buf[..p0]) + Query(query);
    }
    ghost var done := buf[..p];
    buf[p] := '\0';
    assert buf[..p] == done;
  }

  /** path_join: all writes stay inside a buffer of the computed size, and the text before the
      final NUL is `Join`. */
  method JoinBuffer(base: string, baseQuery: string, rel: string, relQuery: string)
    returns (res: array<char>, n: nat)
    ensures res.Length == BufferSize(base, baseQuery, rel, relQuery)
    ensures n < res.Length && res[n] == '\0'
    ensures res[..n] == Join(base, baseQuery, rel, relQuery)
  {
    hide Walk;
    hide SkipSlashes;
    res := new char[BufferSize(base, baseQuery, rel, relQuery)];
    var p, first := 0, 0;
    if rel == [] {
      p := CopyTo(res, 0, if base == [] then "/" else base);
      assert res[..p] == [] + JoinPath(base, rel) == JoinPath(base, rel);
      n := FinishWithQuery(res, p, if relQuery == [] then baseQuery else relQuery);
      return;
    }
    assert rel[0..] == rel;
    if rel[0] == '/' {
      res[0] := '/';
      p := 1;
      first := SkipSlashesFrom(rel, 0);
      assert res[..1] == "/";
    } else {
      p := CopyTo(res, 0, if base == [] then "/" else base);
      assert res[..p] == [] + (if base == [] then "/" else base) == if base == [] then "/" else base;
    }
    p := WalkBuffer(res, p, rel, first);
    assert res[..p] == JoinPath(base, rel);
    n := FinishWithQuery(res, p, relQuery);
  }
}
