/** The Link header parser (`parse_link_header`), which collects the URIs to preload.

    The C++ code moves a cursor `first` towards `last`.  The functions below work on the text that
    is still to be read, that is on the suffix that starts at `first`; the methods at the end keep
    the cursor and the loops of the source and are proved to compute these functions.
 */
module LinkHeader {

  // ---------------------------------------------------------------------------------------
  // Characters
  // ---------------------------------------------------------------------------------------

  function Lowcase(c: char): char {
    if 'A' <= c <= 'Z' then (c as int - 'A' as int + 'a' as int) as char else c
  }

  /** The text starts with `pat`, ignoring case. */
  predicate Matches(r: string, pat: string) {
    |pat| <= |r| && forall k :: 0 <= k < |pat| ==> Lowcase(r[k]) == Lowcase(pat[k])
  }

  predicate IsLws(c: char) {
    c == ' ' || c == '\t'
  }

  /** The characters of a parameter name: token characters other than '*', '\'' and '%'. */
  predicate IsAttrChar(c: char) {
    || 'A' <= c <= 'Z' || 'a' <= c <= 'z' || '0' <= c <= '9'
    || c in {'!', '#', '$', '&', '+', '-', '.', '^', '_', '`', '|', '~'}
  }

  /** The same letter in upper or lower case, or the same character. */
  ghost predicate SameLetter(a: char, b: char) {
    || a == b
    || ('A' <= a <= 'Z' && b as int == a as int + 32)
    || ('A' <= b <= 'Z' && a as int == b as int + 32)
  }

  lemma MatchesIff(r: string, pat: string)
    ensures Matches(r, pat) <==> |pat| <= |r| && forall k :: 0 <= k < |pat| ==> SameLetter(r[k], pat[k])
  {
    forall a: char, b: char
      ensures Lowcase(a) == Lowcase(b) <==> SameLetter(a, b)
    {
      LowcaseIff(a, b);
    }
    hide Lowcase;
    hide SameLetter;
  }

  lemma LowcaseIff(a: char, b: char)
    ensures Lowcase(a) == Lowcase(b) <==> SameLetter(a, b)
  {
    var x, y := a as int, b as int;
    assert a == b <==> x == y;
  }

  /** The attr-char of section 3.2.1 of RFC 5987. */
  lemma AttrCharIff(c: char)
    ensures IsAttrChar(c) <==>
              || 'A' <= c <= 'Z' || 'a' <= c <= 'z' || '0' <= c <= '9'
              || c in "!#$&+-.^_`|~"
  {
  }

  // ---------------------------------------------------------------------------------------
  // The scanning loops, as functions of the text still to be read
  // ---------------------------------------------------------------------------------------

  function SkipLws(r: string): (t: string)
    ensures |t| <= |r|
    ensures t == [] || !IsLws(t[0])
  {
    if r != [] && IsLws(r[0]) then SkipLws(r[1..]) else r
  }

  function SkipToNextField(r: string): (t: string)
    ensures |t| <= |r|
    ensures t == [] || !(IsLws(t[0]) || t[0] == ',')
  {
    if r != [] && (IsLws(r[0]) || r[0] == ',') then SkipToNextField(r[1..]) else r
  }

  /** Skips to the closing double quote; a backslash escapes the next character. */
  function SkipToRightDquote(r: string): (t: string)
    ensures |t| <= |r|
    ensures t == [] || t[0] == '"'
  {
    if r == [] || r[0] == '"' then r
    else if r[0] == '\\' then if |r| == 1 then [] else SkipToRightDquote(r[2..])
    else SkipToRightDquote(r[1..])
  }

  /** Number of characters before the first `c`, or all of them. */
  function Find(r: string, c: char): (n: nat)
    ensures n <= |r|
    ensures n < |r| ==> r[n] == c
    ensures forall k :: 0 <= k < n ==> r[k] != c
  {
    if r == [] || r[0] == c then 0 else 1 + Find(r[1..], c)
  }

  /** Skips an unquoted parameter value. */
  function SkipValue(r: string): (t: string)
    ensures |t| <= |r|
    ensures t == [] || t[0] == ',' || t[0] == ';'
  {
    if r == [] || r[0] == ',' || r[0] == ';' then r else SkipValue(r[1..])
  }

  datatype Scan = Malformed | Scanned(rest: string, ok: bool)

  /** The relations of a quoted rel value: `word` is what has been read of the current one. */
  function ScanRelations(r: string, word: string, ok: bool): (s: Scan)
    ensures s.Scanned? ==> |s.rest| <= |r| && s.rest != [] && s.rest[0] == '"'
    decreases |r|
  {
    if r == [] then Malformed
    else if r[0] != ' ' && r[0] != '"' then ScanRelations(r[1..], word + [r[0]], ok)
    else if word == [] then Malformed
    else
      var found := ok || (|word| == 7 && Matches(word, "preload"));
      if r[0] == '"' then Scanned(r, found) else ScanRelations(SkipLws(r[1..]), [], found)
  }

  /** A parameter name: the rest starts at '=', ';', ',' or is empty. */
  function ScanName(r: string, atStart: bool): (s: Scan)
    ensures s.Scanned? ==> |s.rest| <= |r| && (s.rest == [] || s.rest[0] in {'=', ';', ','})
    decreases |r|
  {
    if r == [] then Scanned(r, true)
    else if IsAttrChar(r[0]) then ScanName(r[1..], false)
    else if |r| >= 2 && !atStart && r[0] == '*' && r[1] == '=' then Scanned(r[1..], true)
    else if r[0] in {'=', ';', ','} then Scanned(r, true)
    else Malformed
  }

  // ---------------------------------------------------------------------------------------
  // One link-param
  // ---------------------------------------------------------------------------------------

  /** How one round of the parameter loop ends: the link is finished, and kept or dropped, or
      another parameter follows. */
  datatype Step = Stop(keep: bool, rest: string) | Next(rest: string, ok: bool, ign: bool)

  /** The label almost_done. */
  function AlmostDone(r: string, ok: bool, ign: bool): Step {
    Stop(ok && !ign, if r == [] then [] else r[1..])
  }

  /** What follows a parameter: the end, ',' or ';'. */
  function AfterParam(r: string, ok: bool, ign: bool): Step {
    if r == [] || r[0] == ',' then AlmostDone(r, ok, ign)
    else if r[0] == ';' then Next(r[1..], ok, ign)
    else Stop(false, [])
  }

  /** A parameter is only acceptable under `pat` if its value is "". */
  predicate CheckParamEmpty(r: string, pat: string) {
    Matches(r, pat) ==> |pat| + 2 <= |r| && r[|pat|] == '"' && r[|pat| + 1] == '"'
  }

  predicate CheckParamWithoutValue(r: string, pat: string) {
    Matches(r, pat) && (|r| == |pat| || r[|pat|] == ';' || r[|pat|] == ',')
  }

  /** The parameters that make the link unfit for push. */
  predicate Ignored(r: string) {
    || !CheckParamEmpty(r, "anchor=")
    || !CheckParamEmpty(r, "loadpolicy=")
    || CheckParamWithoutValue(r, "nopush")
  }

  /** Name, '=' and value of a parameter that is skipped. */
  function SkipParam(r: string, ok: bool, ign: bool): Step {
    match ScanName(r, true)
    case Malformed => Stop(false, [])
    case Scanned(t, _) =>
      if |t| == |r| then Stop(false, [])
      else if t == [] || t[0] != '=' then AfterParam(t, ok, ign)
      else
        var v := t[1..];
        if v == [] then Stop(false, [])
        else if v[0] == '"' then
          var q := SkipToRightDquote(v[1..]);
          if q == [] then Stop(false, []) else AfterParam(q[1..], ok, ign)
        else if v[0] == ',' || v[0] == ';' then Stop(false, [])
        else AfterParam(SkipValue(v), ok, ign)
  }

  /** One round of the loop over the link-params. */
  function ParamStep(r0: string, ok: bool, ign: bool): Step {
    var r := SkipLws(r0);
    if r == [] then Stop(false, [])
    else if ign then SkipParam(r, ok, true)
    else if !ok && |r| > 5 && Matches(r, "rel=\"") then
      match ScanRelations(r[5..], [], false) {
        case Malformed => Stop(false, [])
        case Scanned(t, found) => AfterParam(t[1..], found, false)
      }
    else if Matches(r, "rel=preload") && (|r| == 11 || r[11] == ',') then
      Stop(true, if |r| == 11 then [] else r[12..])
    else if Matches(r, "rel=preload") && r[11] == ';' then Next(r[12..], true, false)
    else SkipParam(r, ok, Ignored(r))
  }

  lemma SkipParamShrinks(r: string, ok: bool, ign: bool)
    requires r != []
    ensures |SkipParam(r, ok, ign).rest| < |r|
  {
  }

  lemma ParamStepShrinks(r: string, ok: bool, ign: bool)
    ensures |ParamStep(r, ok, ign).rest| <= |r|
    ensures ParamStep(r, ok, ign).Next? ==> |ParamStep(r, ok, ign).rest| < |r|
  {
    hide SkipParam;
    var t := SkipLws(r);
    if t != [] {
      SkipParamShrinks(t, ok, ign);
      SkipParamShrinks(t, ok, Ignored(t));
    }
  }

  datatype Verdict = Verdict(keep: bool, rest: string)

  function ParamLoop(r: string, ok: bool, ign: bool): (v: Verdict)
    ensures |v.rest| <= |r|
    decreases |r|
  {
    ParamStepShrinks(r, ok, ign);
    match ParamStep(r, ok, ign)
    case Stop(keep, rest) => Verdict(keep, rest)
    case Next(rest, ok', ign') => ParamLoop(rest, ok', ign')
  }

  // ---------------------------------------------------------------------------------------
  // One link, and the whole header
  // ---------------------------------------------------------------------------------------

  /** A URI (empty if there is none) and the text after the link. */
  datatype Parsed = Parsed(uri: string, rest: string)

  function ParseOnce(r0: string): (p: Parsed)
    ensures |p.rest| <= |r0|
    ensures r0 != [] ==> |p.rest| < |r0|
  {
    var r := SkipToNextField(r0);
    if r == [] || r[0] != '<' then Parsed([], [])
    else
      var n := Find(r[1..], '>');
      var t := r[1 + n..];
      if |t| <= 1 then Parsed([], [])
      else if t[1] == ',' then Parsed([], t[2..])
      else if t[1] != ';' then Parsed([], [])
      else
        var v := ParamLoop(t[2..], false, false);
        Parsed(if v.keep then r[1..1 + n] else [], v.rest)
  }

  function ParseHeader(r: string): seq<string>
    decreases |r|
  {
    if r == [] then []
    else
      var p := ParseOnce(r);
      (if p.uri == [] then [] else [p.uri]) + ParseHeader(p.rest)
  }

  // ---------------------------------------------------------------------------------------
  // Every URI is a slice of the input, and the slices are in order and do not overlap
  // ---------------------------------------------------------------------------------------

  ghost predicate IsSuffix(t: string, r: string) {
    |t| <= |r| && t == r[|r| - |t|..]
  }

  lemma SuffixTrans(a: string, b: string, c: string)
    requires IsSuffix(a, b) && IsSuffix(b, c)
    ensures IsSuffix(a, c)
  {
    assert b[|b| - |a|..] == c[|c| - |a|..];
  }

  lemma SuffixDrop(r: string, n: nat)
    requires n <= |r|
    ensures IsSuffix(r[n..], r)
  {
  }

  lemma DropTrans(r: string, n: nat, r0: string)
    requires IsSuffix(r, r0)
    ensures n <= |r| ==> IsSuffix(r[n..], r0)
  {
    hide IsSuffix;
    if n <= |r| {
      SuffixDrop(r, n);
      SuffixTrans(r[n..], r, r0);
    }
  }

  /** A text is a suffix of itself, and the empty text of every text. */
  lemma TrivialSuffixes(r: string)
    ensures IsSuffix(r, r) && IsSuffix([], r)
  {
  }

  lemma {:induction false} SkipLwsSuffix(r: string, r0: string)
    requires IsSuffix(r, r0)
    ensures IsSuffix(SkipLws(r), r0)
  {
    hide IsSuffix;
    if r != [] {
      DropTrans(r, 1, r0);
      SkipLwsSuffix(r[1..], r0);
    }
  }

  lemma {:induction false} NextFieldSuffix(r: string, r0: string)
    requires IsSuffix(r, r0)
    ensures IsSuffix(SkipToNextField(r), r0)
  {
    hide IsSuffix;
    if r != [] {
      DropTrans(r, 1, r0);
      NextFieldSuffix(r[1..], r0);
    }
  }

  lemma {:induction false} DquoteSuffix(r: string, r0: string)
    requires IsSuffix(r, r0)
    ensures IsSuffix(SkipToRightDquote(r), r0)
  {
    hide IsSuffix;
    TrivialSuffixes(r0);
    if r != [] {
      DropTrans(r, 1, r0);
      DquoteSuffix(r[1..], r0);
      if |r| > 1 {
        DropTrans(r, 2, r0);
        DquoteSuffix(r[2..], r0);
      }
    }
  }

  lemma {:induction false} ValueSuffix(r: string, r0: string)
    requires IsSuffix(r, r0)
    ensures IsSuffix(SkipValue(r), r0)
  {
    hide IsSuffix;
    if r != [] {
      DropTrans(r, 1, r0);
      ValueSuffix(r[1..], r0);
    }
  }

  lemma {:induction false} RelationsSuffix(r: string, word: string, ok: bool, r0: string)
    requires IsSuffix(r, r0)
    ensures var s := ScanRelations(r, word, ok); s.Scanned? ==> IsSuffix(s.rest, r0)
    decreases |r|
  {
    hide IsSuffix;
    hide Matches;
    if r != [] {
      DropTrans(r, 1, r0);
      SkipLwsSuffix(r[1..], r0);
      RelationsSuffix(r[1..], word + [r[0]], ok, r0);
      RelationsSuffix(SkipLws(r[1..]), [], ok || (|word| == 7 && Matches(word, "preload")), r0);
    }
  }

  lemma {:induction false} NameSuffix(r: string, atStart: bool, r0: string)
    requires IsSuffix(r, r0)
    ensures var s := ScanName(r, atStart); s.Scanned? ==> IsSuffix(s.rest, r0)
    decreases |r|
  {
    hide IsSuffix;
    if r != [] {
      DropTrans(r, 1, r0);
      NameSuffix(r[1..], false, r0);
    }
  }

  lemma AfterParamSuffix(t: string, ok: bool, ign: bool, r: string)
    requires IsSuffix(t, r)
    ensures IsSuffix(AfterParam(t, ok, ign).rest, r)
  {
    hide IsSuffix;
    TrivialSuffixes(r);
    DropTrans(t, 1, r);
  }

  lemma SkipParamSuffix(r: string, ok: bool, ign: bool, r0: string)
    requires IsSuffix(r, r0)
    ensures IsSuffix(SkipParam(r, ok, ign).rest, r0)
  {
    hide IsSuffix;
    hide AfterParam;
    hide ScanName;
    hide SkipToRightDquote;
    hide SkipValue;
    TrivialSuffixes(r0);
    NameSuffix(r, true, r0);
    match ScanName(r, true)
    case Malformed =>
    case Scanned(t, _) =>
      AfterParamSuffix(t, ok, ign, r0);
      if |t| > 1 {
        var v := t[1..];
        DropTrans(t, 1, r0);
        ValueSuffix(v, r0);
        AfterParamSuffix(SkipValue(v), ok, ign, r0);
        DropTrans(v, 1, r0);
        DquoteSuffix(v[1..], r0);
        var q := SkipToRightDquote(v[1..]);
        if q != [] {
          DropTrans(q, 1, r0);
          AfterParamSuffix(q[1..], ok, ign, r0);
        }
      }
  }

  lemma ParamStepSuffix(r0: string, ok: bool, ign: bool)
    ensures IsSuffix(ParamStep(r0, ok, ign).rest, r0)
  {
    hide IsSuffix;
    hide AfterParam;
    hide SkipParam;
    hide ScanRelations;
    hide SkipLws;
    hide Ignored;
    TrivialSuffixes(r0);
    SkipLwsSuffix(r0, r0);
    var r := SkipLws(r0);
    SkipParamSuffix(r, ok, true, r0);
    SkipParamSuffix(r, ok, Ignored(r), r0);
    DropTrans(r, 12, r0);
    DropTrans(r, 5, r0);
    if |r| > 5 {
      RelationsSuffix(r[5..], [], false, r0);
      match ScanRelations(r[5..], [], false)
      case Malformed =>
      case Scanned(t, found) =>
        DropTrans(t, 1, r0);
        AfterParamSuffix(t[1..], found, false, r0);
    }
  }

  lemma {:induction false} ParamLoopSuffix(r: string, ok: bool, ign: bool, r0: string)
    requires IsSuffix(r, r0)
    ensures IsSuffix(ParamLoop(r, ok, ign).rest, r0)
    decreases |r|
  {
    hide IsSuffix;
    hide ParamStep;
    ParamStepShrinks(r, ok, ign);
    ParamStepSuffix(r, ok, ign);
    SuffixTrans(ParamStep(r, ok, ign).rest, r, r0);
    match ParamStep(r, ok, ign)
    case Stop(_, _) =>
    case Next(rest, ok', ign') => ParamLoopSuffix(rest, ok', ign', r0);
  }

  lemma ParseOnceSuffix(r0: string)
    ensures IsSuffix(ParseOnce(r0).rest, r0)
  {
    hide IsSuffix;
    hide ParamLoop;
    hide SkipToNextField;
    TrivialSuffixes(r0);
    NextFieldSuffix(r0, r0);
    var r := SkipToNextField(r0);
    if r != [] {
      DropTrans(r, 1 + Find(r[1..], '>'), r0);
      var t := r[1 + Find(r[1..], '>')..];
      DropTrans(t, 2, r0);
      if |t| >= 2 {
        ParamLoopSuffix(t[2..], false, false, r0);
      }
    }
  }

  /** s[a..b] stands between '<' and the first '>' after it. */
  ghost predicate LinkAt(s: string, a: int, b: int) {
    0 < a <= b < |s| && s[a - 1] == '<' && s[b] == '>' && forall k :: a <= k < b ==> s[k] != '>'
  }

  lemma MoveLink(s: string, t: string, a: nat, b: nat)
    requires IsSuffix(t, s) && LinkAt(t, a, b)
    ensures var d := |s| - |t|; LinkAt(s, a + d, b + d) && t[a..b] == s[a + d..b + d]
  {
    var d := |s| - |t|;
    assert forall k :: 0 <= k < |t| ==> t[k] == s[d + k];
    assert forall k :: a + d <= k < b + d ==> s[k] == t[k - d];
  }

  /** A URI is such a slice of the text before the rest. */
  lemma ParseOnceSlice(r0: string) returns (a: nat, b: nat)
    ensures var p := ParseOnce(r0);
            p.uri != [] ==> LinkAt(r0, a, b) && p.uri == r0[a..b] && b < |r0| - |p.rest|
  {
    hide ParamLoop;
    hide SkipToNextField;
    hide Find;
    hide IsSuffix;
    TrivialSuffixes(r0);
    NextFieldSuffix(r0, r0);
    var r := SkipToNextField(r0);
    a, b := 0, 0;
    if ParseOnce(r0).uri != [] {
      var n := Find(r[1..], '>');
      assert forall k :: 1 <= k < 1 + n ==> r[k] == r[1..][k - 1];
      MoveLink(r0, r, 1, 1 + n);
      a, b := 1 + |r0| - |r|, 1 + n + |r0| - |r|;
    }
  }

  ghost predicate UriAt(s: string, place: (nat, nat), uri: string) {
    LinkAt(s, place.0, place.1) && uri == s[place.0..place.1]
  }

  ghost function Moved(d: nat, places: seq<(nat, nat)>): seq<(nat, nat)> {
    seq(|places|, k requires 0 <= k < |places| => (places[k].0 + d, places[k].1 + d))
  }

  lemma MoveUri(s: string, t: string, place: (nat, nat), uri: string)
    requires IsSuffix(t, s) && UriAt(t, place, uri)
    ensures |t| <= |s| && UriAt(s, (place.0 + |s| - |t|, place.1 + |s| - |t|), uri) && place.0 > 0
  {
    MoveLink(s, t, place.0, place.1);
  }

  /** The URIs stand in `s` at these places, one after the other. */
  ghost predicate AllAt(s: string, places: seq<(nat, nat)>, uris: seq<string>) {
    && |places| == |uris|
    && (forall k :: 0 <= k < |places| ==> UriAt(s, places[k], uris[k]))
    && (forall k :: 0 < k < |places| ==> places[k - 1].1 < places[k].0)
  }

  lemma MoveUris(s: string, t: string, places: seq<(nat, nat)>, uris: seq<string>)
    requires IsSuffix(t, s) && AllAt(t, places, uris)
    ensures |t| <= |s| && AllAt(s, Moved(|s| - |t|, places), uris)
    ensures places != [] ==> Moved(|s| - |t|, places)[0].0 > |s| - |t|
  {
    hide UriAt;
    var moved := Moved(|s| - |t|, places);
    forall k | 0 <= k < |places|
      ensures UriAt(s, moved[k], uris[k]) && moved[k].0 > |s| - |t|
    {
      MoveUri(s, t, places[k], uris[k]);
    }
  }

  lemma PutFirst(s: string, place: (nat, nat), uri: string, places: seq<(nat, nat)>, uris: seq<string>)
    requires UriAt(s, place, uri) && AllAt(s, places, uris)
    requires places != [] ==> place.1 < places[0].0
    ensures AllAt(s, [place] + places, [uri] + uris)
  {
    hide UriAt;
  }

  lemma HeaderUnfold(s: string)
    ensures s == [] ==> ParseHeader(s) == []
    ensures s != [] ==>
              var p := ParseOnce(s);
              |p.rest| < |s| && ParseHeader(s) == (if p.uri == [] then [] else [p.uri]) + ParseHeader(p.rest)
  {
    hide ParseOnce;
  }

  lemma SameLength(d: nat, places: seq<(nat, nat)>)
    ensures |Moved(d, places)| == |places|
  {
  }

  lemma NoneAt(s: string)
    ensures AllAt(s, [], [])
  {
  }

  lemma FirstUri(s: string) returns (a: nat, b: nat)
    ensures var p := ParseOnce(s); p.uri != [] ==> UriAt(s, (a, b), p.uri) && b < |s| - |p.rest|
  {
    hide ParseOnce;
    a, b := ParseOnceSlice(s);
  }

  /** The whole header: the URIs are slices of the input at increasing places. */
  lemma {:induction false} UrisAreSlices(s: string) returns (at: seq<(nat, nat)>)
    ensures AllAt(s, at, ParseHeader(s))
    decreases |s|
  {
    hide ParseOnce;
    hide ParseHeader;
    hide IsSuffix;
    hide AllAt;
    hide UriAt;
    hide Moved;
    HeaderUnfold(s);
    at := [];
    if s == [] {
      NoneAt(s);
    } else {
      var p := ParseOnce(s);
      ParseOnceSuffix(s);
      var a, b := FirstUri(s);
      var rest := UrisAreSlices(p.rest);
      MoveUris(s, p.rest, rest, ParseHeader(p.rest));
      at := Moved(|s| - |p.rest|, rest);
      assert |at| == |rest| by { SameLength(|s| - |p.rest|, rest); }
      if p.uri != [] {
        PutFirst(s, (a, b), p.uri, at, ParseHeader(p.rest));
        at := [(a, b)] + at;
      } else {
        assert [] + ParseHeader(p.rest) == ParseHeader(p.rest);
      }
    }
  }

  // ---------------------------------------------------------------------------------------
  // Round trip: parsing what a printer wrote
  // ---------------------------------------------------------------------------------------

  /** A link-param as section 3 of RFC 8288 writes it. */
  datatype Param =
    | Preload
    | Relations(words: seq<string>)
    | Bare(name: string)
    | Other(name: string, value: string)
    | Quoted(name: string, value: string)
    | Extended(name: string, value: string)

  datatype Link = Link(uri: string, params: seq<Param>)

  /** The name is `word`, ignoring case. */
  predicate Named(name: string, word: string) {
    |name| == |word| && Matches(name, word)
  }

  predicate ValidWord(w: string) {
    w != [] && forall k :: 0 <= k < |w| ==> w[k] !in {' ', '\t', '"', '\\'}
  }

  predicate IsPreload(w: string) {
    |w| == 7 && Matches(w, "preload")
  }

  /** The parameter is a relation type that is, or contains, preload. */
  predicate AsksPreload(p: Param) {
    p.Preload? || (p.Relations? && exists k :: 0 <= k < |p.words| && IsPreload(p.words[k]))
  }

  /** Names the context of the link, or a policy for loading it, and is not empty. */
  predicate Restricts(name: string, value: string) {
    value != [] && (Named(name, "anchor") || Named(name, "loadpolicy"))
  }

  /** The parameter makes the link unfit for push. */
  predicate Blocks(p: Param) {
    || (p.Bare? && Named(p.name, "nopush"))
    || ((p.Other? || p.Quoted?) && Restricts(p.name, p.value))
  }

  predicate ValidName(name: string) {
    name != [] && forall k :: 0 <= k < |name| ==> IsAttrChar(name[k])
  }

  /** Relation types are written as words in quotes.  Other parameters have a name of attribute characters, and no
      value, an unquoted value, or a quoted value of any characters. */
  predicate ValidParam(p: Param) {
    match p
    case Preload => true
    case Relations(words) => words != [] && forall k :: 0 <= k < |words| ==> ValidWord(words[k])
    case Bare(name) => ValidName(name)
    case Other(name, value) => ValidName(name) && !Named(name, "rel") && ValidValue(value)
    case Quoted(name, value) => ValidName(name) && !Named(name, "rel")
    case Extended(name, value) => ValidName(name) && ValidValue(value)
  }

  predicate ValidValue(value: string) {
    value != [] && value[0] != '"' && forall k :: 0 <= k < |value| ==> value[k] != ',' && value[k] != ';'
  }

  predicate ValidLink(l: Link) {
    && l.uri != [] && (forall k :: 0 <= k < |l.uri| ==> l.uri[k] != '>')
    && (forall k :: 0 <= k < |l.params| ==> ValidParam(l.params[k]))
  }

  function PrintWords(ws: seq<string>): string {
    if ws == [] then []
    else if |ws| == 1 then ws[0]
    else ws[0] + (" " + PrintWords(ws[1..]))
  }

  function PrintParam(p: Param): string {
    match p
    case Preload => "rel=preload"
    case Relations(ws) => "rel=\"" + (PrintWords(ws) + "\"")
    case Bare(name) => name
    case Other(name, value) => name + ("=" + value)
    case Quoted(name, value) => name + ("=\"" + (Escape(value) + "\""))
    case Extended(name, value) => name + ("*=" + value)
  }

  /** In quotes, a backslash stands before a quote or backslash. */
  function Escape(value: string): string {
    if value == [] then [] else EscapeChar(value[0]) + Escape(value[1..])
  }

  function EscapeChar(c: char): string {
    if c == '"' || c == '\\' then ['\\', c] else [c]
  }

  function PrintParams(ps: seq<Param>): string {
    if ps == [] then [] else "; " + PrintParam(ps[0]) + PrintParams(ps[1..])
  }

  function PrintLink(l: Link): string {
    "<" + l.uri + ">" + PrintParams(l.params)
  }

  function PrintHeader(ls: seq<Link>): string {
    if ls == [] then []
    else if |ls| == 1 then PrintLink(ls[0])
    else PrintLink(ls[0]) + ", " + PrintHeader(ls[1..])
  }

  /** A link is to be preloaded if it says so, does not say nopush, and names no context and no policy. */
  predicate Wanted(l: Link) {
    && (exists k :: 0 <= k < |l.params| && AsksPreload(l.params[k]))
    && (forall k :: 0 <= k < |l.params| ==> !Blocks(l.params[k]))
  }

  function WantedUris(ls: seq<Link>): seq<string> {
    if ls == [] then [] else (if Wanted(ls[0]) then [ls[0].uri] else []) + WantedUris(ls[1..])
  }

  /** What may follow a printed parameter. */
  predicate Boundary(t: string) {
    t == [] || t[0] == ',' || t[0] == ';'
  }

  lemma {:induction false} NameIsScanned(name: string, t: string, atStart: bool)
    requires forall k :: 0 <= k < |name| ==> IsAttrChar(name[k])
    requires t == [] || t[0] in {'=', ';', ','}
    ensures ScanName(name + t, atStart) == Scanned(t, true)
    decreases |name|
  {
    if name == [] {
      assert name + t == t;
    } else {
      assert (name + t)[1..] == name[1..] + t;
      NameIsScanned(name[1..], t, false);
    }
  }

  lemma {:induction false} ValueIsSkipped(value: string, t: string)
    requires forall k :: 0 <= k < |value| ==> value[k] != ',' && value[k] != ';'
    requires Boundary(t)
    ensures SkipValue(value + t) == t
  {
    if value == [] {
      assert value + t == t;
    } else {
      assert (value + t)[1..] == value[1..] + t;
      ValueIsSkipped(value[1..], t);
    }
  }

  /** name=value is skipped up to the boundary. */
  lemma SkipNamedParam(name: string, value: string, t: string, ok: bool, ign: bool)
    requires name != [] && (forall k :: 0 <= k < |name| ==> IsAttrChar(name[k]))
    requires value != [] && value[0] != '"' && Boundary(t)
    requires forall k :: 0 <= k < |value| ==> value[k] != ',' && value[k] != ';'
    ensures SkipParam(name + ("=" + value) + t, ok, ign) == AfterParam(t, ok, ign)
  {
    hide ScanName;
    hide SkipValue;
    hide AfterParam;
    var r := name + ("=" + value) + t;
    var u := "=" + (value + t);
    assert r == name + u;
    NameIsScanned(name, u, true);
    assert u[1..] == value + t;
    ValueIsSkipped(value, t);
  }

  lemma SkipBareParam(name: string, t: string, ok: bool, ign: bool)
    requires name != [] && (forall k :: 0 <= k < |name| ==> IsAttrChar(name[k]))
    requires Boundary(t)
    ensures SkipParam(name + t, ok, ign) == AfterParam(t, ok, ign)
  {
    hide ScanName;
    hide AfterParam;
    NameIsScanned(name, t, true);
  }

  /** What may follow a name. */
  predicate EndsName(u: string) {
    u == [] || !IsAttrChar(u[0])
  }

  lemma MatchesParts(a: string, b: string, p: string, q: string)
    requires |a| == |p|
    ensures Matches(a + b, p + q) <==> Matches(a, p) && Matches(b, q)
  {
    hide Lowcase;
    var r, pat := a + b, p + q;
    if Matches(r, pat) {
      forall k | 0 <= k < |p|
        ensures Lowcase(a[k]) == Lowcase(p[k])
      {
        assert r[k] == a[k] && pat[k] == p[k];
      }
      forall k | 0 <= k < |q|
        ensures Lowcase(b[k]) == Lowcase(q[k])
      {
        assert r[|a| + k] == b[k] && pat[|p| + k] == q[k];
      }
    }
    if Matches(a, p) && Matches(b, q) {
      forall k | 0 <= k < |pat|
        ensures Lowcase(r[k]) == Lowcase(pat[k])
      {
        if k >= |p| {
          assert r[k] == b[k - |a|] && pat[k] == q[k - |p|];
        }
      }
    }
  }

  /** A text with a name in front matches a pattern `word=...` if and only if the name is that word and the rest
      matches. */
  lemma NameDecides(name: string, u: string, word: string, rest: string)
    requires ValidName(name) && EndsName(u) && forall k :: 0 <= k < |word| ==> 'a' <= word[k] <= 'z'
    ensures Matches(name + u, word + ("=" + rest)) <==> Named(name, word) && Matches(u, "=" + rest)
  {
    var r, pat := name + u, word + ("=" + rest);
    assert pat[|word|] == '=';
    assert forall k :: 0 <= k < |word| ==> pat[k] == word[k];
    assert forall k :: 0 <= k < |name| ==> r[k] == name[k];
    if |name| == |word| {
      MatchesParts(name, u, word, "=" + rest);
    } else if |name| > |word| {
      assert IsAttrChar(r[|word|]);
    } else if |r| > |name| {
      assert r[|name|] == u[0];
    }
  }

  lemma NotNopush(name: string, x: string)
    requires name != [] && (forall k :: 0 <= k < |name| ==> IsAttrChar(name[k]))
    ensures !CheckParamWithoutValue(name + ("=" + x), "nopush")
  {
    var r := name + ("=" + x);
    assert r[|name|] == '=';
    assert |name| > 6 ==> r[6] == name[6];
  }

  function OkAfter(p: Param, ok: bool, ign: bool): bool {
    ok || (AsksPreload(p) && !ign)
  }

  /** One printed parameter takes one round of the loop. */
  lemma StepOnParam(p: Param, t: string, ok: bool, ign: bool)
    requires ValidParam(p) && Boundary(t)
    ensures ParamStep(" " + (PrintParam(p) + t), ok, ign)
            == AfterParam(t, OkAfter(p, ok, ign), ign || Blocks(p))
  {
    hide ParamStep;
    hide AfterParam;
    match p
    case Preload => PreloadStep(t, ok, ign);
    case Relations(ws) => RelationsStep(ws, t, ok, ign);
    case Bare(name) => BareStep(name, t, ok, ign);
    case Other(name, value) => OtherIsSkipped(name, value, t, ok, ign);
    case Quoted(name, value) => QuotedStep(name, value, t, ok, ign);
    case Extended(name, value) => ExtendedStep(name, value, t, ok, ign);
  }

  lemma PreloadStep(t: string, ok: bool, ign: bool)
    requires Boundary(t)
    ensures ParamStep(" " + ("rel=preload" + t), ok, ign) == AfterParam(t, ok || !ign, ign)
  {
    hide SkipParam;
    hide ScanRelations;
    hide Ignored;
    var r := "rel=preload" + t;
    assert (" " + r)[1..] == r && SkipLws(" " + r) == r;
    assert "rel=preload" == "rel" + ("=" + "preload");
    SkipNamedParam("rel", "preload", t, ok, true);
    assert r[4] == 'p' && (t != [] ==> r[11] == t[0] && r[12..] == t[1..]);
    assert Matches(r, "rel=preload");
  }

  lemma {:induction false} WordIsRead(w: string, r: string, word: string, ok: bool)
    requires forall k :: 0 <= k < |w| ==> w[k] != ' ' && w[k] != '"'
    ensures ScanRelations(w + r, word, ok) == ScanRelations(r, word + w, ok)
    decreases |w|
  {
    hide Matches;
    if w == [] {
      assert w + r == r && word + w == word;
    } else {
      assert (w + r)[1..] == w[1..] + r;
      WordIsRead(w[1..], r, word + [w[0]], ok);
      assert word + [w[0]] + w[1..] == word + w;
    }
  }

  lemma {:induction false} WordsAreScanned(ws: seq<string>, t: string, ok: bool)
    requires ws != [] && forall k :: 0 <= k < |ws| ==> ValidWord(ws[k])
    ensures ScanRelations(PrintWords(ws) + ("\"" + t), [], ok)
            == Scanned("\"" + t, ok || exists k :: 0 <= k < |ws| && IsPreload(ws[k]))
    decreases |ws|
  {
    hide ScanRelations;
    hide IsPreload;
    var w, quote := ws[0], "\"" + t;
    assert [] + w == w;
    if |ws| == 1 {
      WordIsRead(w, quote, [], ok);
      WordEnds(w, quote, ok);
    } else {
      var more := PrintWords(ws[1..]) + quote;
      assert PrintWords(ws) + quote == w + (" " + more);
      WordIsRead(w, " " + more, [], ok);
      WordEnds(w, " " + more, ok);
      assert (" " + more)[1..] == more;
      assert more[0] == ws[1][0] && SkipLws(more) == more by { assert ValidWord(ws[1]); }
      WordsAreScanned(ws[1..], t, ok || IsPreload(w));
      assert forall k :: 1 <= k < |ws| ==> ws[k] == ws[1..][k - 1];
    }
  }

  /** The end of a word. */
  lemma WordEnds(w: string, r: string, ok: bool)
    requires w != [] && r != [] && (r[0] == ' ' || r[0] == '"')
    ensures ScanRelations(r, w, ok)
            == if r[0] == '"' then Scanned(r, ok || IsPreload(w))
               else ScanRelations(SkipLws(r[1..]), [], ok || IsPreload(w))
  {
  }

  lemma {:induction false} QuotedIsSkipped(x: string, t: string)
    ensures SkipToRightDquote(Escape(x) + ("\"" + t)) == "\"" + t
  {
    hide SkipToRightDquote;
    var quote := "\"" + t;
    if x == [] {
      assert Escape(x) + quote == quote;
      StopsAtQuote(t);
    } else {
      var rest := Escape(x[1..]) + quote;
      var c := EscapeChar(x[0]);
      assert Escape(x) + quote == c + rest;
      CharIsSkipped(x[0], rest);
      QuotedIsSkipped(x[1..], t);
    }
  }

  lemma StopsAtQuote(t: string)
    ensures SkipToRightDquote("\"" + t) == "\"" + t
  {
  }

  lemma CharIsSkipped(c: char, rest: string)
    ensures SkipToRightDquote(EscapeChar(c) + rest) == SkipToRightDquote(rest)
  {
    var r := EscapeChar(c) + rest;
    assert r[|EscapeChar(c)|..] == rest;
  }

  lemma {:induction false} NothingToEscape(x: string)
    requires forall k :: 0 <= k < |x| ==> x[k] != '"' && x[k] != '\\'
    ensures Escape(x) == x
  {
    if x != [] {
      NothingToEscape(x[1..]);
      assert x == [x[0]] + x[1..];
    }
  }

  lemma {:induction false} WordsArePlain(ws: seq<string>)
    requires forall k :: 0 <= k < |ws| ==> ValidWord(ws[k])
    ensures forall k :: 0 <= k < |PrintWords(ws)| ==> PrintWords(ws)[k] != '"' && PrintWords(ws)[k] != '\\'
  {
    if |ws| > 1 {
      WordsArePlain(ws[1..]);
    } else if |ws| == 1 {
      assert ValidWord(ws[0]);
    }
  }

  lemma RelationsStep(ws: seq<string>, t: string, ok: bool, ign: bool)
    requires ValidParam(Relations(ws)) && Boundary(t)
    ensures ParamStep(" " + (PrintParam(Relations(ws)) + t), ok, ign)
            == AfterParam(t, OkAfter(Relations(ws), ok, ign), ign)
  {
    hide SkipParam;
    hide ScanRelations;
    hide ValidWord;
    hide IsPreload;
    hide PrintWords;
    hide Matches;
    hide Ignored;
    hide AfterParam;
    var x := PrintWords(ws);
    var r := "rel=\"" + (x + ("\"" + t));
    assert PrintParam(Relations(ws)) + t == r;
    assert (" " + r)[1..] == r && SkipLws(" " + r) == r;
    assert r[5..] == x + ("\"" + t) && r[4] == '"';
    WordsAreScanned(ws, t, false);
    assert ("\"" + t)[1..] == t;
    SkipQuotedRel(ws, t, ok, ign);
    RelPrefix(x + ("\"" + t));
  }

  lemma RelPrefix(x: string)
    ensures var r := "rel=\"" + x; Matches(r, "rel=\"") && !Matches(r, "rel=preload") && !Ignored(r)
  {
    var r := "rel=\"" + x;
    assert r[0] == 'r' && r[4] == '"';
  }

  lemma SkipQuotedRel(ws: seq<string>, t: string, ok: bool, ign: bool)
    requires ValidParam(Relations(ws)) && Boundary(t)
    ensures SkipParam("rel=\"" + (PrintWords(ws) + ("\"" + t)), ok, ign) == AfterParam(t, ok, ign)
  {
    hide SkipParam;
    hide AfterParam;
    hide PrintWords;
    hide ValidWord;
    hide Escape;
    var x := PrintWords(ws);
    WordsArePlain(ws);
    NothingToEscape(x);
    SkipQuotedParam("rel", x, t, ok, ign);
    assert "rel" + ("=" + ("\"" + (x + ("\"" + t)))) == "rel=\"" + (x + ("\"" + t));
  }

  lemma BareStep(name: string, t: string, ok: bool, ign: bool)
    requires ValidName(name) && Boundary(t)
    ensures ParamStep(" " + (name + t), ok, ign) == AfterParam(t, ok, ign || Named(name, "nopush"))
  {
    hide SkipParam;
    hide ScanRelations;
    hide AfterParam;
    hide Matches;
    hide Ignored;
    hide Named;
    var r := name + t;
    assert (" " + r)[1..] == r && r[0] == name[0] && SkipLws(" " + r) == r;
    SkipBareParam(name, t, ok, true);
    SkipBareParam(name, t, ok, Named(name, "nopush"));
    BareMismatch(name, t, "rel", "\"");
    BareMismatch(name, t, "rel", "preload");
    assert "rel" + ("=" + "\"") == "rel=\"" && "rel" + ("=" + "preload") == "rel=preload";
    BareIgnored(name, t);
  }

  /** A name without a value does not match a pattern with one. */
  lemma BareMismatch(name: string, t: string, word: string, rest: string)
    requires ValidName(name) && Boundary(t) && forall k :: 0 <= k < |word| ==> 'a' <= word[k] <= 'z'
    ensures !Matches(name + t, word + ("=" + rest))
  {
    NameDecides(name, t, word, rest);
  }

  lemma BareIgnored(name: string, t: string)
    requires ValidName(name) && Boundary(t)
    ensures Ignored(name + t) <==> Named(name, "nopush")
  {
    var r := name + t;
    BareMismatch(name, t, "anchor", "");
    BareMismatch(name, t, "loadpolicy", "");
    assert "anchor" + ("=" + "") == "anchor=" && "loadpolicy" + ("=" + "") == "loadpolicy=";
    assert forall k :: 0 <= k < |name| ==> r[k] == name[k];
    assert t != [] ==> r[|name|] == t[0];
    assert "nopush"[0] == 'n' && "nopush"[1] == 'o' && "nopush"[2] == 'p';
    assert "nopush"[3] == 'u' && "nopush"[4] == 's' && "nopush"[5] == 'h';
  }

  /** A parameter with a value: ignored if it is a context or a policy whose value is not two quotes. */
  lemma ValuedIgnored(name: string, x: string)
    requires ValidName(name)
    ensures Ignored(name + ("=" + x)) <==>
              (Named(name, "anchor") || Named(name, "loadpolicy")) && !(|x| >= 2 && x[0] == '"' && x[1] == '"')
  {
    var u := "=" + x;
    hide CheckParamWithoutValue;
    NotNopush(name, x);
    CheckedEmpty(name, x, "anchor", "anchor=");
    CheckedEmpty(name, x, "loadpolicy", "loadpolicy=");
    hide CheckParamEmpty;
  }

  lemma CheckedEmpty(name: string, x: string, word: string, pat: string)
    requires ValidName(name) && pat == word + "=" && forall k :: 0 <= k < |word| ==> 'a' <= word[k] <= 'z'
    ensures CheckParamEmpty(name + ("=" + x), pat) <==>
              !Named(name, word) || (|x| >= 2 && x[0] == '"' && x[1] == '"')
  {
    var r := name + ("=" + x);
    NameDecides(name, "=" + x, word, "");
    assert word + ("=" + "") == pat;
    assert Matches("=" + x, "=" + "");
    assert |x| >= 2 ==> r[|name| + 1] == x[0] && r[|name| + 2] == x[1];
  }

  /** A parameter `name=x` that is not a relation type is skipped. */
  lemma ValuedStep(name: string, x: string, ok: bool, ign: bool)
    requires ValidName(name) && !Named(name, "rel")
    ensures var r := name + ("=" + x);
            ParamStep(" " + r, ok, ign) == if ign then SkipParam(r, ok, true) else SkipParam(r, ok, Ignored(r))
  {
    hide SkipParam;
    hide ScanRelations;
    hide AfterParam;
    hide Matches;
    hide Ignored;
    hide Named;
    var r := name + ("=" + x);
    assert (" " + r)[1..] == r && r[0] == name[0] && SkipLws(" " + r) == r;
    NameDecides(name, "=" + x, "rel", "\"");
    NameDecides(name, "=" + x, "rel", "preload");
    assert "rel" + ("=" + "\"") == "rel=\"" && "rel" + ("=" + "preload") == "rel=preload";
  }

  lemma OtherIsSkipped(name: string, value: string, t: string, ok: bool, ign: bool)
    requires ValidParam(Other(name, value)) && Boundary(t)
    ensures ParamStep(" " + (name + ("=" + value) + t), ok, ign) == AfterParam(t, ok, ign || Restricts(name, value))
  {
    hide SkipParam;
    hide ParamStep;
    hide AfterParam;
    hide Ignored;
    hide Named;
    var x := value + t;
    assert name + ("=" + value) + t == name + ("=" + x);
    ValuedStep(name, x, ok, ign);
    ValuedIgnored(name, x);
    SkipNamedParam(name, value, t, ok, true);
    SkipNamedParam(name, value, t, ok, Restricts(name, value));
  }

  lemma QuotedStep(name: string, value: string, t: string, ok: bool, ign: bool)
    requires ValidParam(Quoted(name, value)) && Boundary(t)
    ensures ParamStep(" " + (name + ("=\"" + (Escape(value) + "\"")) + t), ok, ign)
            == AfterParam(t, ok, ign || Restricts(name, value))
  {
    hide SkipParam;
    hide ParamStep;
    hide AfterParam;
    hide Ignored;
    hide Named;
    var x := "\"" + (Escape(value) + ("\"" + t));
    assert name + ("=\"" + (Escape(value) + "\"")) + t == name + ("=" + x);
    ValuedStep(name, x, ok, ign);
    ValuedIgnored(name, x);
    EscapedFirst(value, t);
    SkipQuotedParam(name, value, t, ok, true);
    SkipQuotedParam(name, value, t, ok, Restricts(name, value));
  }

  lemma EscapedFirst(value: string, t: string)
    ensures var x := "\"" + (Escape(value) + ("\"" + t)); |x| >= 2 && (x[1] == '"' <==> value == [])
  {
  }

  lemma SkipQuotedParam(name: string, value: string, t: string, ok: bool, ign: bool)
    requires ValidName(name) && Boundary(t)
    ensures SkipParam(name + ("=" + ("\"" + (Escape(value) + ("\"" + t)))), ok, ign) == AfterParam(t, ok, ign)
  {
    hide ScanName;
    hide AfterParam;
    hide SkipToRightDquote;
    hide Escape;
    var y := Escape(value) + ("\"" + t);
    var u := "=" + ("\"" + y);
    NameIsScanned(name, u, true);
    assert u[1..] == "\"" + y && u[1..][1..] == y;
    QuotedIsSkipped(value, t);
    assert ("\"" + t)[1..] == t;
  }

  /** A name that is not followed by the equals sign or a boundary is not looked at further. */
  lemma OddStep(name: string, u: string, ok: bool, ign: bool)
    requires ValidName(name) && u != [] && !IsAttrChar(u[0]) && u[0] !in {'=', ';', ','}
    ensures var r := name + u;
            ParamStep(" " + r, ok, ign) == SkipParam(r, ok, ign)
  {
    hide SkipParam;
    hide ScanRelations;
    hide AfterParam;
    hide Matches;
    hide Named;
    var r := name + u;
    assert (" " + r)[1..] == r && r[0] == name[0] && SkipLws(" " + r) == r;
    OddMismatch(name, u, "rel", "\"", "rel=\"");
    OddMismatch(name, u, "rel", "preload", "rel=preload");
    OddMismatch(name, u, "anchor", "", "anchor=");
    OddMismatch(name, u, "loadpolicy", "", "loadpolicy=");
    OddNopush(name, u);
  }

  lemma OddMismatch(name: string, u: string, word: string, rest: string, pat: string)
    requires ValidName(name) && u != [] && !IsAttrChar(u[0]) && u[0] != '=' && pat == word + ("=" + rest)
    requires forall k :: 0 <= k < |word| ==> 'a' <= word[k] <= 'z'
    ensures !Matches(name + u, pat)
  {
    NameDecides(name, u, word, rest);
    assert ("=" + rest)[0] == '=';
  }

  lemma OddNopush(name: string, u: string)
    requires ValidName(name) && u != [] && !IsAttrChar(u[0]) && u[0] != ';' && u[0] != ','
    ensures !CheckParamWithoutValue(name + u, "nopush")
  {
    var r := name + u;
    assert r[|name|] == u[0];
    assert |name| > 6 ==> r[6] == name[6];
    assert "nopush"[0] == 'n' && "nopush"[1] == 'o' && "nopush"[2] == 'p';
    assert "nopush"[3] == 'u' && "nopush"[4] == 's' && "nopush"[5] == 'h';
  }

  lemma {:induction false} StarIsScanned(name: string, x: string, atStart: bool)
    requires (forall k :: 0 <= k < |name| ==> IsAttrChar(name[k])) && (name == [] ==> !atStart)
    ensures ScanName(name + ("*=" + x), atStart) == Scanned("=" + x, true)
    decreases |name|
  {
    var u := "*=" + x;
    if name == [] {
      assert name + u == u && u[1..] == "=" + x;
    } else {
      assert (name + u)[1..] == name[1..] + u;
      StarIsScanned(name[1..], x, false);
    }
  }

  lemma ExtendedStep(name: string, value: string, t: string, ok: bool, ign: bool)
    requires ValidParam(Extended(name, value)) && Boundary(t)
    ensures ParamStep(" " + (name + ("*=" + value) + t), ok, ign) == AfterParam(t, ok, ign)
  {
    hide ParamStep;
    hide AfterParam;
    hide ScanName;
    hide SkipValue;
    hide IsAttrChar;
    var u := "*=" + (value + t);
    assert name + ("*=" + value) + t == name + u;
    assert !IsAttrChar('*') by { AttrCharIff('*'); }
    OddStep(name, u, ok, ign);
    StarIsScanned(name, value + t, true);
    ValueIsSkipped(value, t);
    assert ("=" + (value + t))[1..] == value + t;
  }

  lemma LoopUnfold(r: string, ok: bool, ign: bool)
    ensures match ParamStep(r, ok, ign)
            case Stop(keep, rest) => ParamLoop(r, ok, ign) == Verdict(keep, rest)
            case Next(rest, ok', ign') => ParamLoop(r, ok, ign) == ParamLoop(rest, ok', ign')
  {
    hide ParamStep;
    ParamStepShrinks(r, ok, ign);
  }

  lemma ParamsUnfold(ps: seq<Param>)
    ensures ps == [] ==> PrintParams(ps) == []
    ensures ps != [] ==> PrintParams(ps) == "; " + PrintParam(ps[0]) + PrintParams(ps[1..])
    ensures ps != [] ==> PrintParams(ps) != [] && PrintParams(ps)[0] == ';'
  {
    hide PrintParam;
  }

  lemma DropFirst(p: string, q: string, t: string)
    ensures ("; " + p + q + t)[1..] == " " + (p + (q + t))
  {
  }

  lemma PrintUnfold(ps: seq<Param>, t: string)
    requires ps != []
    ensures var tail := PrintParams(ps[1..]) + t;
            && (PrintParams(ps) + t)[1..] == " " + (PrintParam(ps[0]) + tail)
            && (|ps| == 1 ==> tail == t)
            && (|ps| > 1 ==> tail != [] && tail[0] == ';')
  {
    hide PrintParam;
    hide PrintParams;
    ParamsUnfold(ps);
    ParamsUnfold(ps[1..]);
    DropFirst(PrintParam(ps[0]), PrintParams(ps[1..]), t);
  }

  /** The loop over all printed parameters of a link. */
  lemma {:induction false} LoopOnParams(ps: seq<Param>, t: string, ok: bool, ign: bool)
    requires ps != [] && (forall k :: 0 <= k < |ps| ==> ValidParam(ps[k]))
    requires t == [] || t[0] == ','
    ensures var v := ParamLoop((PrintParams(ps) + t)[1..], ok, ign);
            && v.rest == (if t == [] then [] else t[1..])
            && (v.keep <==> (ok || exists k :: 0 <= k < |ps| && AsksPreload(ps[k]))
                            && !ign && forall k :: 0 <= k < |ps| ==> !Blocks(ps[k]))
    decreases |ps|
  {
    hide ParamStep;
    hide ParamLoop;
    hide ValidParam;
    hide PrintParam;
    hide PrintParams;
    hide AsksPreload;
    hide Blocks;
    var p, tail := ps[0], PrintParams(ps[1..]) + t;
    PrintUnfold(ps, t);
    StepOnParam(p, tail, ok, ign);
    LoopUnfold(" " + (PrintParam(p) + tail), ok, ign);
    assert ps == [p] + ps[1..];
    assert forall k :: 1 <= k < |ps| ==> ps[k] == ps[1..][k - 1];
    assert forall k :: 0 <= k < |ps[1..]| ==> ps[1..][k] == ps[k + 1];
    if |ps| > 1 {
      LoopOnParams(ps[1..], t, OkAfter(p, ok, ign), ign || Blocks(p));
    }
  }

  lemma {:induction false} FindGt(uri: string, t: string)
    requires forall k :: 0 <= k < |uri| ==> uri[k] != '>'
    ensures Find(uri + (">" + t), '>') == |uri|
  {
    if uri != [] {
      assert (uri + (">" + t))[1..] == uri[1..] + (">" + t);
      FindGt(uri[1..], t);
    }
  }

  /** A URI in angle brackets and something that starts with ';'. */
  lemma ParseOnceOn(sep: string, uri: string, u: string)
    requires forall k :: 0 <= k < |uri| ==> uri[k] != '>'
    requires u != [] && u[0] == ';' && (sep == [] || sep == " ")
    ensures var v := ParamLoop(u[1..], false, false);
            ParseOnce(sep + ("<" + (uri + (">" + u)))) == Parsed(if v.keep then uri else [], v.rest)
  {
    hide ParamLoop;
    hide Find;
    hide SkipToNextField;
    var r := "<" + (uri + (">" + u));
    SkipSeparator(sep, r);
    assert r[1..] == uri + (">" + u);
    FindGt(uri, u);
    assert r[1 + |uri|..] == ">" + u && r[1..1 + |uri|] == uri;
    assert (">" + u)[2..] == u[1..];
  }

  /** A link without parameters is passed over. */
  lemma ParseBareLink(sep: string, uri: string, t: string)
    requires forall k :: 0 <= k < |uri| ==> uri[k] != '>'
    requires (t == [] || t[0] == ',') && (sep == [] || sep == " ")
    ensures ParseOnce(sep + ("<" + (uri + (">" + t)))) == Parsed([], if t == [] then [] else t[1..])
  {
    hide ParamLoop;
    hide Find;
    hide SkipToNextField;
    var r := "<" + (uri + (">" + t));
    SkipSeparator(sep, r);
    assert r[1..] == uri + (">" + t);
    FindGt(uri, t);
    assert r[1 + |uri|..] == ">" + t;
    assert t != [] ==> (">" + t)[2..] == t[1..];
  }

  /** One printed link, with or without the separator before it. */
  lemma ParsePrintedLink(l: Link, t: string, sep: string)
    requires ValidLink(l) && (t == [] || t[0] == ',') && (sep == [] || sep == " ")
    ensures ParseOnce(sep + (PrintLink(l) + t))
            == Parsed(if Wanted(l) then l.uri else [], if t == [] then [] else t[1..])
  {
    hide ParseOnce;
    hide ParamLoop;
    hide ValidParam;
    hide PrintParam;
    var u := PrintParams(l.params) + t;
    assert PrintLink(l) + t == "<" + (l.uri + (">" + u));
    if l.params == [] {
      assert u == t;
      ParseBareLink(sep, l.uri, t);
      return;
    }
    LoopOnParams(l.params, t, false, false);
    ParseOnceOn(sep, l.uri, u);
  }

  lemma SkipSeparator(sep: string, r: string)
    requires r != [] && r[0] == '<' && (sep == [] || sep == " ")
    ensures SkipToNextField(sep + r) == r
  {
    if sep == [] {
      assert sep + r == r;
    } else {
      assert (sep + r)[1..] == r;
    }
  }

  /** Parsing a printed header returns exactly the URIs of the links that ask for preload and
      are fit for push, in order. */
  lemma {:induction false} RoundTrip(ls: seq<Link>)
    requires forall k :: 0 <= k < |ls| ==> ValidLink(ls[k])
    ensures ParseHeader(PrintHeader(ls)) == WantedUris(ls)
  {
    RoundTripFrom(ls, []);
    assert [] + PrintHeader(ls) == PrintHeader(ls);
  }

  lemma {:induction false} RoundTripFrom(ls: seq<Link>, sep: string)
    requires forall k :: 0 <= k < |ls| ==> ValidLink(ls[k])
    requires sep == [] || (sep == " " && ls != [])
    ensures ParseHeader(sep + PrintHeader(ls)) == WantedUris(ls)
    decreases |ls|
  {
    hide ParseHeader;
    hide ParseOnce;
    hide PrintLink;
    hide Wanted;
    HeaderUnfold([]);
    if ls == [] {
      assert sep + PrintHeader(ls) == [];
    } else {
      var l, rest := ls[0], ls[1..];
      var t := if |ls| == 1 then [] else "," + (" " + PrintHeader(rest));
      var r := sep + (PrintLink(l) + t);
      assert sep + PrintHeader(ls) == r && r != [] by { LinkNotEmpty(l); }
      HeaderUnfold(r);
      ParsePrintedLink(l, t, sep);
      if |ls| > 1 {
        assert t[1..] == " " + PrintHeader(rest);
        RoundTripFrom(rest, " ");
      }
    }
  }

  lemma LinkNotEmpty(l: Link)
    ensures PrintLink(l) != []
  {
  }

  // ---------------------------------------------------------------------------------------
  // White space, and links that are not well formed
  // ---------------------------------------------------------------------------------------

  /** Blanks and tabs before a parameter mean nothing. */
  lemma {:induction false} WhiteSpaceIsSkipped(pad: string, r: string, ok: bool, ign: bool)
    requires forall k :: 0 <= k < |pad| ==> pad[k] == ' ' || pad[k] == '\t'
    ensures SkipLws(pad + r) == SkipLws(r) && SkipToNextField(pad + r) == SkipToNextField(r)
    ensures ParamStep(pad + r, ok, ign) == ParamStep(r, ok, ign)
    decreases |pad|
  {
    if pad == [] {
      assert pad + r == r;
    } else {
      assert (pad + r)[1..] == pad[1..] + r;
      hide ParamStep;
      WhiteSpaceIsSkipped(pad[1..], r, ok, ign);
      SameAfterWhite(pad + r, r, ok, ign);
    }
  }

  lemma SameAfterWhite(a: string, b: string, ok: bool, ign: bool)
    requires SkipLws(a) == SkipLws(b)
    ensures ParamStep(a, ok, ign) == ParamStep(b, ok, ign)
  {
    hide SkipParam;
    hide ScanRelations;
    hide Matches;
    hide Ignored;
    hide AfterParam;
  }

  /** What is wrong with a parameter. */
  datatype Flaw =
    | Nothing
    | NoName(rest: string)
    | OddName(name: string, rest: string)
    | NoValue(name: string, rest: string)
    | NoClosingQuote(name: string, text: string)
    | OddAfterQuote(name: string, value: string, rest: string)

  /** Nothing follows the semicolon; the name is missing, or is followed by an odd character; the value is missing, or
      has no closing quote, or is followed by an odd character. */
  predicate ValidFlaw(f: Flaw) {
    match f
    case Nothing => true
    case NoName(rest) => rest != [] && (rest[0] == '=' || rest[0] == ';' || rest[0] == ',')
    case OddName(name, rest) =>
      ValidName(name) && rest != [] && !IsAttrChar(rest[0]) && rest[0] !in {'=', ';', ',', '*'}
    case NoValue(name, rest) => ValidName(name) && !Named(name, "rel") && Boundary(rest)
    case NoClosingQuote(name, text) =>
      ValidName(name) && !Named(name, "rel") && forall k :: 0 <= k < |text| ==> text[k] != '"' && text[k] != '\\'
    case OddAfterQuote(name, value, rest) => ValidName(name) && !Named(name, "rel") && !Boundary(rest)
  }

  function PrintFlaw(f: Flaw): string {
    match f
    case Nothing => []
    case NoName(rest) => rest
    case OddName(name, rest) => name + rest
    case NoValue(name, rest) => name + ("=" + rest)
    case NoClosingQuote(name, text) => name + ("=" + ("\"" + text))
    case OddAfterQuote(name, value, rest) => name + ("=" + ("\"" + (Escape(value) + ("\"" + rest))))
  }

  /** A flaw ends the parsing: the link is not taken, and neither is anything after it. */
  lemma FlawStops(f: Flaw, ok: bool, ign: bool)
    requires ValidFlaw(f)
    ensures ParamStep(" " + PrintFlaw(f), ok, ign) == Stop(false, [])
  {
    hide ParamStep;
    match f
    case Nothing => NothingStops(ok, ign);
    case NoName(rest) => NoNameStops(rest, ok, ign);
    case OddName(name, rest) =>
      OddStep(name, rest, ok, ign);
      OddIsMalformed(name, rest, true);
    case NoValue(name, rest) =>
      ValuedStep(name, rest, ok, ign);
      NameIsScanned(name, "=" + rest, true);
    case NoClosingQuote(name, text) =>
      ValuedStep(name, "\"" + text, ok, ign);
      NameIsScanned(name, "=" + ("\"" + text), true);
      NoQuoteFound(text);
      assert ("=" + ("\"" + text))[1..][1..] == text;
    case OddAfterQuote(name, value, rest) => OddAfterStops(name, value, rest, ok, ign);
  }

  lemma NothingStops(ok: bool, ign: bool)
    ensures ParamStep(" " + [], ok, ign) == Stop(false, [])
  {
    assert (" " + [])[1..] == [] && SkipLws([]) == [];
  }

  lemma NoNameStops(rest: string, ok: bool, ign: bool)
    requires rest != [] && (rest[0] == '=' || rest[0] == ';' || rest[0] == ',')
    ensures ParamStep(" " + rest, ok, ign) == Stop(false, [])
  {
    assert (" " + rest)[1..] == rest && SkipLws(rest) == rest;
    hide ScanRelations;
    assert "rel=\""[0] == 'r' && "rel=preload"[0] == 'r';
  }

  lemma {:induction false} OddIsMalformed(name: string, u: string, atStart: bool)
    requires forall k :: 0 <= k < |name| ==> IsAttrChar(name[k])
    requires u != [] && !IsAttrChar(u[0]) && u[0] !in {'=', ';', ',', '*'}
    ensures ScanName(name + u, atStart) == Malformed
    decreases |name|
  {
    if name == [] {
      assert name + u == u;
    } else {
      assert (name + u)[1..] == name[1..] + u;
      OddIsMalformed(name[1..], u, false);
    }
  }

  lemma {:induction false} NoQuoteFound(text: string)
    requires forall k :: 0 <= k < |text| ==> text[k] != '"' && text[k] != '\\'
    ensures SkipToRightDquote(text) == []
  {
    if text != [] {
      NoQuoteFound(text[1..]);
    }
  }

  lemma OddAfterStops(name: string, value: string, rest: string, ok: bool, ign: bool)
    requires ValidName(name) && !Named(name, "rel") && !Boundary(rest)
    ensures ParamStep(" " + (name + ("=" + ("\"" + (Escape(value) + ("\"" + rest))))), ok, ign) == Stop(false, [])
  {
    hide ParamStep;
    hide ScanName;
    hide SkipToRightDquote;
    hide Escape;
    var y := Escape(value) + ("\"" + rest);
    var u := "=" + ("\"" + y);
    ValuedStep(name, "\"" + y, ok, ign);
    NameIsScanned(name, u, true);
    assert u[1..] == "\"" + y && u[1..][1..] == y;
    QuotedIsSkipped(value, rest);
    assert ("\"" + rest)[1..] == rest;
  }

  lemma {:induction false} LoopToFlaw(ps: seq<Param>, f: Flaw, ok: bool, ign: bool)
    requires ValidFlaw(f) && forall k :: 0 <= k < |ps| ==> ValidParam(ps[k])
    ensures ParamLoop((PrintParams(ps) + ("; " + PrintFlaw(f)))[1..], ok, ign) == Verdict(false, [])
    decreases |ps|
  {
    hide ParamStep;
    hide ParamLoop;
    hide ValidParam;
    hide ValidFlaw;
    hide PrintParam;
    hide PrintParams;
    hide PrintFlaw;
    var t := "; " + PrintFlaw(f);
    if ps == [] {
      ParamsUnfold(ps);
      assert (PrintParams(ps) + t)[1..] == " " + PrintFlaw(f);
      FlawStops(f, ok, ign);
      LoopUnfold(" " + PrintFlaw(f), ok, ign);
    } else {
      var p, tail := ps[0], PrintParams(ps[1..]) + t;
      PrintUnfold(ps, t);
      StepOnParam(p, tail, ok, ign);
      LoopUnfold(" " + (PrintParam(p) + tail), ok, ign);
      LoopToFlaw(ps[1..], f, OkAfter(p, ok, ign), ign || Blocks(p));
    }
  }

  /** A header whose last link has a flaw: the links before it are taken as if it were not there. */
  lemma {:induction false} FlawedHeader(ls: seq<Link>, l: Link, f: Flaw, sep: string)
    requires (forall k :: 0 <= k < |ls| ==> ValidLink(ls[k])) && ValidLink(l) && ValidFlaw(f)
    requires sep == [] || sep == " "
    ensures ParseHeader(sep + PrintFlawed(ls, l, f)) == WantedUris(ls)
    decreases |ls|
  {
    hide ParseHeader;
    hide ParseOnce;
    hide PrintLink;
    hide Wanted;
    hide ValidFlaw;
    HeaderUnfold([]);
    if ls == [] {
      var u := PrintParams(l.params) + ("; " + PrintFlaw(f));
      FlawedLink(l, f, sep);
      HeaderUnfold(sep + (PrintLink(l) + ("; " + PrintFlaw(f))));
      assert [] + ParseHeader([]) == [];
      LinkNotEmpty(l);
    } else {
      var rest := PrintFlawed(ls[1..], l, f);
      var t := "," + (" " + rest);
      var r := sep + (PrintLink(ls[0]) + t);
      assert sep + PrintFlawed(ls, l, f) == r && r != [] by { LinkNotEmpty(ls[0]); }
      HeaderUnfold(r);
      ParsePrintedLink(ls[0], t, sep);
      assert t[1..] == " " + rest;
      FlawedHeader(ls[1..], l, f, " ");
    }
  }

  function PrintFlawed(ls: seq<Link>, l: Link, f: Flaw): string {
    if ls == [] then PrintLink(l) + ("; " + PrintFlaw(f)) else PrintLink(ls[0]) + (", " + PrintFlawed(ls[1..], l, f))
  }

  lemma FlawedLink(l: Link, f: Flaw, sep: string)
    requires ValidLink(l) && ValidFlaw(f) && (sep == [] || sep == " ")
    ensures ParseOnce(sep + (PrintLink(l) + ("; " + PrintFlaw(f)))) == Parsed([], [])
  {
    hide ParseOnce;
    hide ParamLoop;
    hide ValidParam;
    hide ValidFlaw;
    hide PrintParam;
    hide PrintFlaw;
    hide PrintParams;
    var u := PrintParams(l.params) + ("; " + PrintFlaw(f));
    assert PrintLink(l) + ("; " + PrintFlaw(f)) == "<" + (l.uri + (">" + u));
    ParamsUnfold(l.params);
    LoopToFlaw(l.params, f, false, false);
    ParseOnceOn(sep, l.uri, u);
  }

  // ---------------------------------------------------------------------------------------
  // The code itself: a cursor over the input
  // ---------------------------------------------------------------------------------------

  method SkipLwsAt(s: string, from: nat) returns (first: nat)
    requires from <= |s|
    ensures from <= first <= |s| && s[first..] == SkipLws(s[from..])
  {
    first := from;
    while first != |s| && IsLws(s[first])
      invariant from <= first <= |s|
      invariant SkipLws(s[first..]) == SkipLws(s[from..])
    {
      assert s[first..][1..] == s[first + 1..];
      first := first + 1;
    }
  }

  method SkipToNextFieldAt(s: string, from: nat) returns (first: nat)
    requires from <= |s|
    ensures from <= first <= |s| && s[first..] == SkipToNextField(s[from..])
  {
    first := from;
    while first != |s| && (IsLws(s[first]) || s[first] == ',')
      invariant from <= first <= |s|
      invariant SkipToNextField(s[first..]) == SkipToNextField(s[from..])
    {
      assert s[first..][1..] == s[first + 1..];
      first := first + 1;
    }
  }

  method SkipToRightDquoteAt(s: string, from: nat) returns (first: nat)
    requires from <= |s|
    ensures from <= first <= |s| && s[first..] == SkipToRightDquote(s[from..])
  {
    first := from;
    while first != |s|
      invariant from <= first <= |s|
      invariant SkipToRightDquote(s[first..]) == SkipToRightDquote(s[from..])
    {
      if s[first] == '"' {
        return;
      }
      assert s[first..][1..] == s[first + 1..];
      if s[first] == '\\' {
        assert first + 2 <= |s| ==> s[first..][2..] == s[first + 2..];
        first := first + 1;
        if first == |s| {
          return;
        }
      }
      first := first + 1;
    }
  }

  method SkipValueAt(s: string, from: nat) returns (first: nat)
    requires from <= |s|
    ensures from <= first <= |s| && s[first..] == SkipValue(s[from..])
  {
    first := from;
    while first != |s|
      invariant from <= first <= |s|
      invariant SkipValue(s[first..]) == SkipValue(s[from..])
    {
      if s[first] == ',' || s[first] == ';' {
        break;
      }
      assert s[first..][1..] == s[first + 1..];
      first := first + 1;
    }
  }

  /** `valid` is false where the source gives up on the whole header. */
  method ScanNameAt(s: string, from: nat) returns (valid: bool, first: nat)
    requires from <= |s|
    ensures valid ==> from <= first <= |s| && ScanName(s[from..], true) == Scanned(s[first..], true)
    ensures !valid ==> ScanName(s[from..], true).Malformed?
  {
    first := from;
    while first != |s|
      invariant from <= first <= |s|
      invariant ScanName(s[first..], first == from) == ScanName(s[from..], true)
    {
      assert s[first..][1..] == s[first + 1..];
      if IsAttrChar(s[first]) {
        first := first + 1;
        continue;
      }
      if |s| - first >= 2 && first != from && s[first] == '*' && s[first + 1] == '=' {
        first := first + 1;
        return true, first;
      }
      return s[first] in {'=', ';', ','}, first;
    }
    valid := true;
  }

  /** One round of the loop over the relations. */
  lemma RelationsRound(s: string, start: nat, first: nat, ok: bool)
    requires start <= first < |s|
    ensures var scan := ScanRelations(s[first..], s[start..first], ok);
            var found := ok || (start + 7 == first && Matches(s[start..first], "preload"));
            if s[first] != ' ' && s[first] != '"' then
              scan == ScanRelations(s[first + 1..], s[start..first + 1], ok)
            else if start == first then scan.Malformed?
            else if s[first] == '"' then scan == Scanned(s[first..], found)
            else scan == ScanRelations(SkipLws(s[first + 1..]), [], found)
  {
    hide Matches;
    hide SkipLws;
    assert s[first..][1..] == s[first + 1..];
    assert s[start..first] + [s[first]] == s[start..first + 1];
  }

  method ScanRelationsAt(s: string, from: nat) returns (valid: bool, first: nat, ok: bool)
    requires from <= |s|
    ensures valid ==> from <= first < |s| && ScanRelations(s[from..], [], false) == Scanned(s[first..], ok)
    ensures !valid ==> ScanRelations(s[from..], [], false).Malformed?
  {
    hide Matches;
    hide SkipLws;
    hide ScanRelations;
    first, ok := from, false;
    var start := first;
    assert s[start..first] == [];
    while first != |s|
      invariant from <= start <= first <= |s|
      invariant ScanRelations(s[first..], s[start..first], ok) == ScanRelations(s[from..], [], false)
      decreases |s| - first
    {
      RelationsRound(s, start, first, ok);
      if s[first] != ' ' && s[first] != '"' {
        first := first + 1;
        continue;
      }
      if start == first {
        return false, first, ok;
      }
      if !ok && start + 7 == first && Matches(s[start..first], "preload") {
        ok := true;
      }
      if s[first] == '"' {
        return true, first, ok;
      }
      first := SkipLwsAt(s, first + 1);
      start := first;
      assert s[start..first] == [];
    }
    RelationsEnd(s[start..first], ok);
    assert s[first..] == [];
    valid := false;
  }

  lemma RelationsEnd(word: string, ok: bool)
    ensures ScanRelations([], word, ok).Malformed?
  {
  }

  /** The part of the loop body that skips a parameter; `step` says how the round ends. */
  method SkipParamAt(s: string, from: nat, ok: bool, ign: bool) returns (step: Step)
    requires from <= |s|
    ensures step == SkipParam(s[from..], ok, ign)
  {
    hide ScanName;
    hide SkipToRightDquote;
    hide SkipValue;
    var valid, first := ScanNameAt(s, from);
    if !valid {
      return Stop(false, []);
    }
    if from == first {
      return Stop(false, []);
    }
    if first == |s| || s[first] != '=' {
      return AfterParam(s[first..], ok, ign);
    }
    assert s[first..][1..] == s[first + 1..];
    first := first + 1;
    if first == |s| {
      return Stop(false, []);
    }
    if s[first] == '"' {
      assert s[first..][1..] == s[first + 1..];
      first := SkipToRightDquoteAt(s, first + 1);
      if first == |s| {
        return Stop(false, []);
      }
      assert s[first..][1..] == s[first + 1..];
      return AfterParam(s[first + 1..], ok, ign);
    }
    if s[first] == ',' || s[first] == ';' {
      return Stop(false, []);
    }
    first := SkipValueAt(s, first);
    return AfterParam(s[first..], ok, ign);
  }

  /** One round of the loop over the link-params. */
  method ParamStepAt(s: string, from: nat, ok: bool, ign: bool) returns (step: Step)
    requires from <= |s|
    ensures step == ParamStep(s[from..], ok, ign)
  {
    hide SkipLws;
    hide SkipParam;
    hide ScanRelations;
    hide Matches;
    hide Ignored;
    var first := SkipLwsAt(s, from);
    if first == |s| {
      return Stop(false, []);
    }
    ghost var r := s[first..];
    if !ign {
      if !ok && first + 5 < |s| && Matches(s[first..], "rel=\"") {
        var valid, end, found := ScanRelationsAt(s, first + 5);
        assert r[5..] == s[first + 5..];
        if !valid {
          return Stop(false, []);
        }
        assert s[end..][1..] == s[end + 1..];
        return AfterParam(s[end + 1..], found, false);
      }
      if first + 11 == |s| {
        if Matches(s[first..], "rel=preload") {
          return Stop(true, []);
        }
      } else if first + 12 <= |s| {
        assert r[11] == s[first + 11] && r[12..] == s[first + 12..];
        if s[first + 11] == ',' && Matches(s[first..], "rel=preload") {
          return Stop(true, s[first + 12..]);
        }
        if s[first + 11] == ';' && Matches(s[first..], "rel=preload") {
          return Next(s[first + 12..], true, false);
        }
      } else {
        TooShort(r, "rel=preload");
      }
    }
    step := SkipParamAt(s, first, ok, ign || Ignored(s[first..]));
  }

  lemma TooShort(r: string, pat: string)
    requires |r| < |pat|
    ensures !Matches(r, pat)
  {
  }

  /** The loop over the link-params. */
  method ParamLoopAt(s: string, from: nat) returns (keep: bool, next: nat)
    requires from <= |s|
    ensures from <= next <= |s|
    ensures ParamLoop(s[from..], false, false) == Verdict(keep, s[next..])
  {
    hide ParamStep;
    hide ParamLoop;
    hide IsSuffix;
    var first, ok, ign := from, false, false;
    while true
      invariant from <= first <= |s|
      invariant ParamLoop(s[first..], ok, ign) == ParamLoop(s[from..], false, false)
      decreases |s| - first
    {
      var step := ParamStepAt(s, first, ok, ign);
      LoopUnfold(s[first..], ok, ign);
      ParamStepShrinks(s[first..], ok, ign);
      ParamStepSuffix(s[first..], ok, ign);
      SuffixIndex(s, first, step.rest);
      match step {
        case Stop(keep, rest) =>
          return keep, |s| - |rest|;
        case Next(rest, ok', ign') =>
          first, ok, ign := |s| - |rest|, ok', ign';
      }
    }
  }

  /** parse_next_link_header_once: the URI and the new cursor, strictly ahead of the old one. */
  method ParseOnceAt(s: string, from: nat) returns (uri: string, next: nat)
    requires from < |s|
    ensures from < next <= |s|
    ensures ParseOnce(s[from..]) == Parsed(uri, s[next..])
  {
    hide ParamStep;
    hide ParamLoop;
    hide Find;
    hide SkipToNextField;
    uri, next := [], |s|;
    assert s[next..] == [];
    var first := SkipToNextFieldAt(s, from);
    if first == |s| || s[first] != '<' {
      return;
    }
    var urlFirst := first + 1;
    assert s[first..][1..] == s[urlFirst..];
    var urlLast := urlFirst + Find(s[urlFirst..], '>');
    assert s[first..][1 + (urlLast - urlFirst)..] == s[urlLast..];
    assert s[first..][1..1 + (urlLast - urlFirst)] == s[urlFirst..urlLast];
    if urlLast == |s| || urlLast + 1 == |s| {
      return;
    }
    first := urlLast + 1;
    assert s[urlLast..][2..] == s[first + 1..] && s[urlLast..][1] == s[first];
    if s[first] == ',' {
      return [], first + 1;
    }
    if s[first] != ';' {
      return;
    }
    var keep, after := ParamLoopAt(s, first + 1);
    return if keep then s[urlFirst..urlLast] else [], after;
  }

  lemma SuffixIndex(s: string, first: nat, rest: string)
    requires first <= |s| && IsSuffix(rest, s[first..])
    ensures first <= |s| - |rest| && rest == s[|s| - |rest|..]
  {
    assert s[first..][|s| - first - |rest|..] == s[|s| - |rest|..];
  }

  /** parse_link_header. */
  method ParseLinkHeader(src: string) returns (res: seq<string>)
    ensures res == ParseHeader(src)
  {
    hide ParseOnce;
    hide ParseHeader;
    var first := 0;
    res := [];
    assert src[0..] == src;
    while first != |src|
      invariant first <= |src|
      invariant res + ParseHeader(src[first..]) == ParseHeader(src)
      decreases |src| - first
    {
      HeaderUnfold(src[first..]);
      ghost var tail := ParseHeader(ParseOnce(src[first..]).rest);
      var uri, next := ParseOnceAt(src, first);
      if uri != [] {
        assert res + ([uri] + tail) == (res + [uri]) + tail;
        res := res + [uri];
      } else {
        assert res + ([] + tail) == res + tail;
      }
      first := next;
    }
    HeaderUnfold([]);
    assert src[first..] == [];
  }
}
