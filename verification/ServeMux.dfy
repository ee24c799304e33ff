/** The server's request multiplexer: registration of patterns with implicit redirects, and the choice of the
    handler of a request. */
module ServeMux {

  import opened Basics
  import opened PathJoin
  import opened PathNormalize

  /** What a request is answered with: a registered callback, a permanent redirect, or 404. */
  datatype Handler = Callback(id: nat) | Redirect(path: string) | NotFound

  datatype Entry = Entry(user: bool, handler: Handler)

  type Mux = map<string, Entry>

  /** The pattern without its host part; a pattern that ends with a slash has one. */
  function PathPart(pattern: string): string
    requires EndsWithSlash(pattern)
  {
    if pattern[0] == '/' then pattern else PathPart(pattern[1..])
  }

  /** `/foo` for a pattern `/foo/`. */
  function WithoutSlash(pattern: string): string
    requires EndsWithSlash(pattern)
  {
    pattern[..|pattern| - 1]
  }

  predicate GetsRedirect(mux: Mux, pattern: string) {
    && |pattern| >= 2 && EndsWithSlash(pattern)
    && (WithoutSlash(pattern) in mux ==> !mux[WithoutSlash(pattern)].user)
  }

  predicate Refuses(mux: Mux, pattern: string, callback: Option<nat>) {
    pattern == [] || callback.None? || (pattern in mux && mux[pattern].user)
  }

  function AddRedirect(mux: Mux, pattern: string): Mux {
    if GetsRedirect(mux, pattern)
    then mux[WithoutSlash(pattern) := Entry(false, Redirect(PathPart(pattern)))]
    else mux
  }

  /** The table after handle; an entry that is there already is not replaced by the callback. */
  function Register(mux: Mux, pattern: string, callback: Option<nat>): Mux {
    if Refuses(mux, pattern, callback) then mux else
    var m := AddRedirect(mux, pattern);
    if pattern in m then m else m[pattern := Entry(true, Callback(callback.value))]
  }

  /** In every table that registrations build, what is user-defined is a callback, and what is implicit
      redirects to the pattern with a slash, which is registered. */
  ghost predicate Inv(mux: Mux) {
    forall p :: p in mux ==>
      && p != []
      && (mux[p].user ==> mux[p].handler.Callback?)
      && (!mux[p].user ==> p + "/" in mux && mux[p].handler == Redirect(PathPart(p + "/")))
  }

  /** Registration keeps the invariant and every user-defined entry. */
  lemma RegisterKeeps(mux: Mux, pattern: string, callback: Option<nat>)
    requires Inv(mux)
    ensures var m := Register(mux, pattern, callback);
            && Inv(m) && mux.Keys <= m.Keys
            && forall p :: p in mux && mux[p].user ==> m[p] == mux[p]
  {
    if GetsRedirect(mux, pattern) {
      assert WithoutSlash(pattern) + "/" == pattern;
    }
  }

  /** A registration that is not refused takes effect exactly when the pattern has no implicit redirect yet:
      otherwise the call reports success and the redirect stays. */
  lemma RegistrationTakesEffectIff(mux: Mux, pattern: string, callback: Option<nat>)
    requires !Refuses(mux, pattern, callback)
    ensures pattern in Register(mux, pattern, callback)
    ensures Register(mux, pattern, callback)[pattern] == Entry(true, Callback(callback.value)) <==>
              pattern !in mux
  {
    assert GetsRedirect(mux, pattern) ==> |WithoutSlash(pattern)| < |pattern|;
  }

  /** `/a/` and then `/a`: the second callback is never installed. */
  lemma RegistrationCanBeLost()
    ensures var m := Register(Register(map[], "/a/", Some(1)), "/a", Some(2));
            !Refuses(Register(map[], "/a/", Some(1)), "/a", Some(2)) && m["/a"] == Entry(false, Redirect("/a/"))
  {
    assert WithoutSlash("/a/") == "/a";
  }

  ghost function RegisterAll(calls: seq<(string, Option<nat>)>): Mux {
    if calls == [] then map[] else
      var (pattern, callback) := calls[|calls| - 1];
      Register(RegisterAll(calls[..|calls| - 1]), pattern, callback)
  }

  lemma {:induction false} RegisterAllKeeps(calls: seq<(string, Option<nat>)>)
    ensures Inv(RegisterAll(calls))
  {
    if calls != [] {
      RegisterAllKeeps(calls[..|calls| - 1]);
      var (pattern, callback) := calls[|calls| - 1];
      RegisterKeeps(RegisterAll(calls[..|calls| - 1]), pattern, callback);
    }
  }

  /** path_match. */
  predicate PathMatch(pattern: string, path: string)
    requires pattern != []
  {
    if pattern[|pattern| - 1] != '/' then pattern == path else pattern <= path
  }

  ghost predicate Longest(mux: Mux, path: string, p: string)
    requires forall k :: k in mux ==> k != []
  {
    && p in mux && PathMatch(p, path)
    && forall q :: q in mux && PathMatch(q, path) ==> |q| <= |p|
  }

  /** What a look-up answers: the pattern that is the path; if there is none, the longest pattern that ends with a
      slash and that the path begins with; nothing if there is none of those either. */
  ghost predicate Dispatches(mux: Mux, path: string, r: Option<Handler>) {
    if path in mux then r == Some(mux[path].handler)
    else match r
         case None => forall p :: p in mux && p <= path ==> !EndsWithSlash(p)
         case Some(handler) => exists p :: DispatchesTo(mux, path, p) && handler == mux[p].handler
  }

  ghost predicate DispatchesTo(mux: Mux, path: string, p: string) {
    && p in mux && EndsWithSlash(p) && p <= path
    && forall q :: q in mux && EndsWithSlash(q) && q <= path ==> |q| <= |p|
  }

  lemma LongestDispatches(mux: Mux, path: string, r: Option<Handler>)
    requires forall k :: k in mux ==> k != []
    requires r.None? <==> forall p :: p in mux ==> !PathMatch(p, path)
    requires r.Some? ==> exists p :: Longest(mux, path, p) && r.value == mux[p].handler
    ensures Dispatches(mux, path, r)
  {
    if path in mux {
      assert PathMatch(path, path);
    }
    if r.Some? {
      var p :| Longest(mux, path, p) && r.value == mux[p].handler;
      if path in mux {
        assert |p| == |path|;
        assert p == path;
      } else {
        assert DispatchesTo(mux, path, p);
      }
    }
  }

  /** There is one longest match at most, so the order in which patterns are tried does not matter. */
  lemma LongestIsUnique(mux: Mux, path: string, p: string, q: string)
    requires forall k :: k in mux ==> k != []
    requires Longest(mux, path, p) && Longest(mux, path, q)
    ensures p == q
  {
    assert |p| == |q| && p == path[..|p|] && q == path[..|q|];
  }

  lemma {:induction false} PathPartFacts(pattern: string)
    requires EndsWithSlash(pattern)
    ensures var t := PathPart(pattern);
            && |t| <= |pattern| && t == pattern[|pattern| - |t|..] && Rooted(t) && NoSlash(pattern[..|pattern| - |t|])
  {
    if pattern[0] != '/' {
      PathPartFacts(pattern[1..]);
      var t := PathPart(pattern);
      assert pattern[..|pattern| - |t|] == [pattern[0]] + pattern[1..][..|pattern| - 1 - |t|];
    }
  }

  /** Following an implicit redirect leads to the entry it was made for, whatever else is registered: with the
      host of the pattern, the pattern itself is the longest match of the target. */
  lemma RedirectReachesItsPattern(mux: Mux, p: string) returns (host: string)
    requires Inv(mux) && p in mux && !mux[p].user
    ensures mux[p].handler.Redirect? && Rooted(mux[p].handler.path) && NoSlash(host)
    ensures host + mux[p].handler.path == p + "/"
    ensures Longest(mux, host + mux[p].handler.path, p + "/")
    ensures p[0] == '/' ==> host == []
  {
    var pattern := p + "/";
    PathPartFacts(pattern);
    host := pattern[..|pattern| - |PathPart(pattern)|];
    assert pattern[0] == p[0];
  }

  // ---------------------------------------------------------------------------------------
  // The target of a redirect
  // ---------------------------------------------------------------------------------------

  predicate SubDelimiter(c: char) {
    || c == '!' || c == '$' || c == '&' || c == '\'' || c == '(' || c == ')'
    || c == '*' || c == '+' || c == ',' || c == ';' || c == '='
  }

  function HexDigit(v: nat): char
    requires v < 16
  {
    if v < 10 then '0' + v as char else 'A' + (v - 10) as char
  }

  /** The characters that percent_encode_path leaves alone. */
  predicate Literal(c: char) {
    Unreserved(c) || SubDelimiter(c) || c == '/'
  }

  function EncodeChar(c: char): string {
    if Literal(c) then [c]
    else ['%', HexDigit(c as int / 16 % 16), HexDigit(c as int % 16)]
  }

  /** percent_encode_path. */
  function EncodePath(s: string): string {
    if s == [] then [] else EncodeChar(s[0]) + EncodePath(s[1..])
  }

  /** percent_decode, by which the server reads the path of a request. */
  function DecodePath(s: string): string {
    if s == [] then []
    else if IsTriplet(s) then [(16 * HexValue(s[1]) + HexValue(s[2])) as char] + DecodePath(s[3..])
    else [s[0]] + DecodePath(s[1..])
  }

  function Location(path: string, rawQuery: string): string {
    EncodePath(path) + if rawQuery == [] then [] else "?" + rawQuery
  }

  /** The characters that are sent as they are: unreserved characters, sub-delimiters (sections 2.2 and 2.3 of
      RFC 3986) and the slash. */
  lemma LiteralIff(c: char)
    ensures Literal(c) <==>
              || c in "ABCDEFGHIJKLMNOPQRSTUVWXYZ" || c in "abcdefghijklmnopqrstuvwxyz" || c in "0123456789"
              || c in "-._~" || c in "!$&'()*+,;=" || c == '/'
  {
    LetterIff(c);
    assert '0' <= c <= '9' <==> c in "0123456789";
    assert SubDelimiter(c) <==> c in "!$&'()*+,;=";
    assert c == '-' || c == '.' || c == '_' || c == '~' <==> c in "-._~";
  }

  lemma LetterIff(c: char)
    ensures 'A' <= c <= 'Z' <==> c in "ABCDEFGHIJKLMNOPQRSTUVWXYZ"
    ensures 'a' <= c <= 'z' <==> c in "abcdefghijklmnopqrstuvwxyz"
  {
  }

  /** What stands before the first question mark, and what stands after it. */
  ghost function BeforeQuery(s: string): string {
    if s == [] || s[0] == '?' then [] else [s[0]] + BeforeQuery(s[1..])
  }

  ghost function AfterQuery(s: string): string {
    if s == [] then [] else if s[0] == '?' then s[1..] else AfterQuery(s[1..])
  }

  lemma {:induction false} SplitAtQuery(path: string, query: string)
    requires '?' !in path
    ensures BeforeQuery(path) == path && AfterQuery(path) == []
    ensures BeforeQuery(path + "?" + query) == path && AfterQuery(path + "?" + query) == query
  {
    var s := path + "?" + query;
    if path != [] {
      SplitAtQuery(path[1..], query);
      assert s[1..] == path[1..] + "?" + query && path == [path[0]] + path[1..];
    } else {
      assert s == "?" + query && s[1..] == query;
    }
  }

  /** The target of a redirect has the path, once decoded, and the query as it was. */
  lemma LocationIsRead(path: string, rawQuery: string)
    requires forall i :: 0 <= i < |path| ==> path[i] < 256 as char
    ensures var target := Location(path, rawQuery);
            DecodePath(BeforeQuery(target)) == path && AfterQuery(target) == rawQuery
  {
    hide EncodePath;
    hide DecodePath;
    hide BeforeQuery;
    hide AfterQuery;
    EncodedPathDecodes(path);
    SplitAtQuery(EncodePath(path), rawQuery);
    assert EncodePath(path) + ("?" + rawQuery) == EncodePath(path) + "?" + rawQuery;
    assert EncodePath(path) + [] == EncodePath(path);
  }

  lemma HexDigitValue(v: nat)
    requires v < 16
    ensures IsHex(HexDigit(v)) && HexValue(HexDigit(v)) == v
  {
  }

  /** Over HTTP/2, where the path of a request is decoded, a client that follows a redirect asks for the path that
      was meant, and the query begins at the first question mark. */
  lemma {:induction false} EncodedPathDecodes(s: string)
    requires forall i :: 0 <= i < |s| ==> s[i] < 256 as char
    ensures DecodePath(EncodePath(s)) == s && '?' !in EncodePath(s)
  {
    hide EncodeChar;
    hide DecodePath;
    DecodeNothing();
    if s != [] {
      EncodedPathDecodes(s[1..]);
      EncodedCharDecodes(s[0], EncodePath(s[1..]));
      assert s == [s[0]] + s[1..];
    }
  }

  /** Over HTTP/1.1, where the path is not decoded, it asks for the path that was meant if and only if nothing had
      to be encoded. */
  lemma {:induction false} EncodedPathIsSameIff(s: string)
    ensures EncodePath(s) == s <==> forall i :: 0 <= i < |s| ==> Literal(s[i])
    ensures |EncodePath(s)| >= |s| && (|EncodePath(s)| == |s| ==> EncodePath(s) == s)
  {
    if s != [] {
      EncodedPathIsSameIff(s[1..]);
      assert s == [s[0]] + s[1..];
      hide Literal;
      if Literal(s[0]) {
        SamePrefix([s[0]], EncodePath(s[1..]), s[1..]);
      }
      assert forall i :: 1 <= i < |s| ==> s[i] == s[1..][i - 1];
    }
  }

  /** The path "/./%41" is redirected to "/%2541", which is read as another path. */
  lemma EncodedPercent()
    ensures Clean("/./%41") == "/%41" && EncodePath("/%41") == "/%2541"
  {
    hide Walk;
    hide EncodePath;
    AfterSlash("./%41");
    assert "/./%41" == "/" + "./%41";
    CleanedPercent();
    EncodedTail();
    EncodeOne('/', "%41");
    assert "/" + "%2541" == "/%2541" && ['/'] + "%41" == "/%41";
  }

  lemma CleanedPercent()
    ensures Walk("./%41", "/") == "/%41"
  {
    hide Walk;
    TextOf(".", "%41", "./%41");
    WalkUnfold("./%41", "/");
    FindSlashOf("%41", []);
    assert "%41" + [] == "%41" && Head("%41") == "%41";
    WalkOrdinary("%41", "/");
  }

  lemma EncodeOne(c: char, s: string)
    ensures EncodePath([c] + s) == EncodeChar(c) + EncodePath(s)
  {
    assert ([c] + s)[1..] == s;
    hide EncodeChar;
  }

  lemma EncodedTail()
    ensures EncodePath("%41") == "%2541"
  {
    hide EncodePath;
    EncodeOne('%', "41");
    EncodedPathIsSameIff("41");
    assert EncodeChar('%') == "%25";
    assert ['%'] + "41" == "%41" && "%25" + "41" == "%2541";
  }

  lemma DecodeNothing()
    ensures DecodePath([]) == []
  {
  }

  lemma EncodedCharDecodes(c: char, rest: string)
    requires c < 256 as char
    ensures DecodePath(EncodeChar(c) + rest) == [c] + DecodePath(rest) && '?' !in EncodeChar(c)
  {
    var e, v := EncodeChar(c), c as int;
    if |e| == 1 {
      hide DecodePath;
      DecodeOne(c, rest);
    } else {
      HexDigitValue(v / 16 % 16);
      HexDigitValue(v % 16);
      assert 16 * (v / 16 % 16) + v % 16 == v;
      hide HexDigit;
      hide HexValue;
      hide DecodePath;
      DecodeThree(e, rest);
    }
  }

  lemma DecodeOne(c: char, rest: string)
    requires c != '%'
    ensures DecodePath([c] + rest) == [c] + DecodePath(rest)
  {
    assert ([c] + rest)[1..] == rest;
  }

  lemma DecodeThree(e: string, rest: string)
    requires |e| == 3 && IsTriplet(e)
    ensures DecodePath(e + rest) == [(16 * HexValue(e[1]) + HexValue(e[2])) as char] + DecodePath(rest)
  {
    assert (e + rest)[3..] == rest;
  }

  class Multiplexer {
    var mux: Mux

    constructor ()
      ensures mux == map[]
    {
      mux := map[];
    }

    /** handle. */
    method Handle(pattern: string, callback: Option<nat>) returns (ok: bool)
      modifies this
      ensures mux == Register(old(mux), pattern, callback)
      ensures ok <==> pattern != [] && callback.Some? && !(pattern in old(mux) && old(mux)[pattern].user)
      ensures !ok ==> mux == old(mux)
      ensures ok ==> pattern in mux && (pattern !in old(mux) ==> mux[pattern] == Entry(true, Callback(callback.value)))
      ensures forall p :: p != pattern && p + "/" != pattern ==>
                (p in mux <==> p in old(mux)) && (p in mux ==> mux[p] == old(mux)[p])
      ensures forall p :: ok && p != [] && p + "/" == pattern && !(p in old(mux) && old(mux)[p].user) ==>
                p in mux && !mux[p].user && mux[p].handler.Redirect?
    {
      if pattern == [] || callback.None? {
        return false;
      }
      if pattern in mux && mux[pattern].user {
        return false;
      }
      if |pattern| >= 2 && pattern[|pattern| - 1] == '/' {
        var redirectPattern := pattern[..|pattern| - 1];
        if redirectPattern !in mux || !mux[redirectPattern].user {
          mux := mux[redirectPattern := Entry(false, Redirect(PathPart(pattern)))];
        }
      }
      if pattern !in mux {
        mux := mux[pattern := Entry(true, Callback(callback.value))];
      }
      return true;
    }

    /** match: the entry of the longest pattern that matches. */
    method Match(path: string) returns (r: Option<Handler>)
      requires Inv(mux)
      ensures r.None? <==> forall p :: p in mux ==> !PathMatch(p, path)
      ensures r.Some? ==> exists p :: Longest(mux, path, p) && r.value == mux[p].handler
      ensures Dispatches(mux, path, r)
    {
      var best: Option<string> := None;
      var rest := mux.Keys;
      while rest != {}
        invariant rest <= mux.Keys
        invariant best.None? ==> forall p :: p in mux ==> p in rest || !PathMatch(p, path)
        invariant best.Some? ==> best.value in mux && PathMatch(best.value, path)
        invariant best.Some? ==> forall p :: p in mux && PathMatch(p, path) ==> p in rest || |p| <= |best.value|
        decreases |rest|
      {
        var pattern :| pattern in rest;
        rest := rest - {pattern};
        if !PathMatch(pattern, path) {
          continue;
        }
        if best.None? || |best.value| < |pattern| {
          best := Some(pattern);
        }
      }
      if best.None? {
        LongestDispatches(mux, path, None);
        return None;
      }
      assert Longest(mux, path, best.value);
      LongestDispatches(mux, path, Some(mux[best.value].handler));
      return Some(mux[best.value].handler);
    }

    /** handler: a path that is not canonical is redirected, unless the method is CONNECT; otherwise the
        patterns with a host are tried first. */
    method HandlerFor(connect: bool, host: string, path: string, rawQuery: string) returns (r: Handler)
      requires Inv(mux)
      ensures !connect && !Canonical(path) ==> r == Redirect(Location(Clean(path), rawQuery)) && Clean(path) != path
      ensures connect || Canonical(path) ==>
                || (exists p :: Longest(mux, host + path, p) && r == mux[p].handler)
                || ((forall p :: p in mux ==> !PathMatch(p, host + path))
                    && exists p :: Longest(mux, path, p) && r == mux[p].handler)
                || ((forall p :: p in mux ==> !PathMatch(p, host + path) && !PathMatch(p, path))
                    && r == NotFound)
      ensures connect || Canonical(path) ==>
                || Dispatches(mux, host + path, Some(r))
                || (Dispatches(mux, host + path, None) && Dispatches(mux, path, Some(r)))
                || (Dispatches(mux, host + path, None) && Dispatches(mux, path, None) && r == NotFound)
    {
      FixedPointIffCanonical(path);
      hide Clean;
      hide Canonical;
      hide Dispatches;
      if !connect {
        var clean := Clean(path);
        if clean != path {
          return Redirect(Location(clean, rawQuery));
        }
      }
      var cb := Match(host + path);
      if cb.Some? {
        return cb.value;
      }
      cb := Match(path);
      if cb.Some? {
        return cb.value;
      }
      return NotFound;
    }
  }
}
