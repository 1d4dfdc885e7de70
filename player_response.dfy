/** Reading a YouTube watch page: `extractPlayerResponse`, which finds the embedded
    `ytInitialPlayerResponse` object by two regular expressions tried in order, and the caption-track
    choice of `fetchYouTubeCaptions`. */
module PlayerResponse {
  import opened Wrappers
  import opened JsText
  import opened Json

  const VarName: string := "ytInitialPlayerResponse"

  /** `\s*;` matches at `i`. */
  predicate SemicolonAt(s: string, i: nat)
    requires i <= |s|
  {
    var j := SkipSpaces(s, i);
    j < |s| && s[j] == ';'
  }

  /** A `}` at `k` that `\s*;` follows. */
  predicate ObjectEndAt(s: string, k: nat)
    requires k < |s|
  {
    s[k] == '}' && SemicolonAt(s, k + 1)
  }

  /** The lazy `.+?\}\s*;` after an opening brace: the first `e` at or after `from` where `}` and
      `\s*;` follow, provided no line terminator (which `.` does not match) comes first. */
  function LazyObjectEnd(s: string, from: nat): (r: Option<nat>)
    requires from <= |s|
    ensures r.Some? ==> from <= r.value < |s| && ObjectEndAt(s, r.value)
    ensures r.Some? ==> forall k :: from <= k < r.value ==> !IsLineTerminator(s[k])
    ensures r.Some? ==> forall k :: from <= k < r.value ==> !ObjectEndAt(s, k)
    ensures r.None? ==> forall k :: from <= k < |s| && ObjectEndAt(s, k) ==>
      exists j :: from <= j < k && IsLineTerminator(s[j])
    decreases |s| - from
  {
    if from == |s| then None
    else if ObjectEndAt(s, from) then Some(from)
    else if IsLineTerminator(s[from]) then None
    else LazyObjectEnd(s, from + 1)
  }

  /** `s[b..e]` starts with `{`, ends with `}` and has no line terminator in between. */
  predicate ObjectShaped(s: string, b: nat, e: nat) {
    b + 3 <= e <= |s| && s[b] == '{' && s[e - 1] == '}' && forall k :: b < k < e - 1 ==> !IsLineTerminator(s[k])
  }

  /** `ytInitialPlayerResponse\s*=\s*\{.` starts at `p`: the name, spaces, the `=` at `i`, spaces,
      the `{` at `b`, and a character other than a line terminator after it. */
  predicate AssignmentOpens(s: string, p: nat, i: nat, b: nat) {
    && MatchesAt(s, VarName, false, p) && p + |VarName| <= i < b && b + 1 < |s|
    && AllSpace(s[p + |VarName|..i]) && s[i] == '=' && AllSpace(s[i + 1..b])
    && s[b] == '{' && !IsLineTerminator(s[b + 1])
  }

  /** What the scan of `OpeningAt` sees for the opening `AssignmentOpens(s, p, i, b)`. */
  predicate OpeningFound(s: string, p: nat, i: nat, b: nat) {
    && MatchesAt(s, VarName, false, p) && p + |VarName| <= |s|
    && i == SkipSpaces(s, p + |VarName|) && i < |s| && s[i] == '='
    && b == SkipSpaces(s, i + 1) && b + 1 < |s| && s[b] == '{' && !IsLineTerminator(s[b + 1])
  }

  /** The `=` and the `{` of an opening are where the greedy `\s*` runs stop. */
  lemma OpensWhereSpacesStop(s: string, p: nat, i: nat, b: nat)
    requires AssignmentOpens(s, p, i, b)
    ensures OpeningFound(s, p, i, b)
  {
    SkipSpacesStopsAt(s, p + |VarName|, i);
    SkipSpacesStopsAt(s, i + 1, b);
  }

  /** Where the `{` of an opening at `p` is, if one starts there. */
  function OpeningAt(s: string, p: nat): (r: Option<nat>)
    requires p <= |s|
    ensures r.Some? ==> exists i: nat :: AssignmentOpens(s, p, i, r.value)
    ensures forall i: nat, b: nat :: AssignmentOpens(s, p, i, b) ==> r == Some(b)
  {
    forall i: nat, b: nat | AssignmentOpens(s, p, i, b)
      ensures OpeningFound(s, p, i, b)
    {
      OpensWhereSpacesStop(s, p, i, b);
    }
    if !MatchesAt(s, VarName, false, p) then None
    else
      var i := SkipSpaces(s, p + |VarName|);
      if i == |s| || s[i] != '=' then None
      else
        var b := SkipSpaces(s, i + 1);
        if b + 1 >= |s| || s[b] != '{' || IsLineTerminator(s[b + 1]) then None
        else
          assert AssignmentOpens(s, p, i, b);
          Some(b)
  }

  /** The capture of `ytInitialPlayerResponse\s*=\s*(\{.+?\})\s*;` when the match starts at `p`,
      as its bounds in `s`: from the opening's `{` to the first `}` that `\s*;` follows, with no
      line break before it. There is a match whenever such a `}` follows an opening. */
  function AssignmentAt(s: string, p: nat): (r: Option<(nat, nat)>)
    requires p <= |s|
    ensures r.Some? ==> ObjectShaped(s, r.value.0, r.value.1)
    ensures r.Some? ==>
      && MatchesAt(s, VarName, false, p) && OpeningAt(s, p) == Some(r.value.0)
      && LazyObjectEnd(s, r.value.0 + 2) == Some(r.value.1 - 1)
    ensures OpeningAt(s, p).Some? && LazyObjectEnd(s, OpeningAt(s, p).value + 2).Some? ==> r.Some?
  {
    match OpeningAt(s, p)
    case None => None
    case Some(b) =>
      assert b + 1 < |s| && s[b] == '{' && !IsLineTerminator(s[b + 1]);
      match LazyObjectEnd(s, b + 2)
      case None => None
      case Some(e) => ObjectAfterBrace(s, b, e); Some((b, e + 1))
  }

  lemma ObjectAfterBrace(s: string, b: nat, e: nat)
    requires b + 1 < |s| && s[b] == '{' && !IsLineTerminator(s[b + 1])
    requires b + 2 <= e < |s| && s[e] == '}'
    requires forall k :: b + 2 <= k < e ==> !IsLineTerminator(s[k])
    ensures ObjectShaped(s, b, e + 1)
  {
  }

  /** `var\s+` starts at `p` and its spaces end at `a`, where the next character (if any) is not a
      space. */
  predicate VarPrefix(s: string, p: nat, a: nat) {
    MatchesAt(s, "var", false, p) && p + 3 < a <= |s| && AllSpace(s[p + 3..a]) && (a < |s| ==> !IsSpace(s[a]))
  }

  /** Where the greedy `var\s+` that starts at `p` ends, if one starts there. */
  function VarSpaces(s: string, p: nat): (r: Option<nat>)
    requires p <= |s|
    ensures r.Some? ==> VarPrefix(s, p, r.value)
    ensures forall a: nat :: VarPrefix(s, p, a) ==> r == Some(a)
  {
    forall a: nat | VarPrefix(s, p, a) ensures IsSpace(s[p + 3]) && a == SkipSpaces(s, p + 3) {
      assert s[p + 3..a][0] == s[p + 3];
      SkipSpacesStopsAt(s, p + 3, a);
    }
    if MatchesAt(s, "var", false, p) && p + 3 < |s| && IsSpace(s[p + 3]) then Some(SkipSpaces(s, p + 3))
    else None
  }

  /** The capture of the first pattern (`withVar`, which adds `var\s+` in front) or the second one
      when the match starts at `p`: with `var`, the assignment's capture right after the spaces. */
  function PatternAt(s: string, p: nat, withVar: bool): (r: Option<(nat, nat)>)
    requires p <= |s|
    ensures r.Some? ==> ObjectShaped(s, r.value.0, r.value.1)
    ensures !withVar ==> r == AssignmentAt(s, p)
    ensures withVar ==> (r.Some? <==> VarSpaces(s, p).Some? && AssignmentAt(s, VarSpaces(s, p).value).Some?)
    ensures withVar && r.Some? ==> r == AssignmentAt(s, VarSpaces(s, p).value)
  {
    if !withVar then AssignmentAt(s, p)
    else
      match VarSpaces(s, p)
      case None => None
      case Some(a) => AssignmentAt(s, a)
  }

  /** The pattern tried at each position of `s`. */
  function PatternSearch(s: string, withVar: bool): nat -> Option<(nat, nat)> {
    (q: nat) => if q <= |s| then PatternAt(s, q, withVar) else None
  }

  /** `html.match(pattern)?.[1]`, searched from `p`: the leftmost match, at the first position
      from `p` where the pattern matches, and none only when no position from `p` starts one. */
  function MatchFrom(s: string, p: nat, withVar: bool): (r: Option<(nat, nat)>)
    requires p <= |s|
    ensures r.Some? ==> ObjectShaped(s, r.value.0, r.value.1)
    ensures r.Some? ==> exists q ::
      && p <= q <= |s| && PatternSearch(s, withVar)(q) == r
      && forall j :: p <= j < q ==> PatternSearch(s, withVar)(j).None?
    ensures r.None? ==> forall j :: p <= j <= |s| ==> PatternSearch(s, withVar)(j).None?
  {
    var search := PatternSearch(s, withVar);
    var r := Leftmost(search, p, |s|);
    if r.Some? then
      var q :| p <= q <= |s| && search(q) == r && forall j :: p <= j < q ==> search(j).None?;
      assert PatternAt(s, q, withVar) == r;
      r
    else r
  }

  /** The text the pattern captures in the whole page, if it matches at all. */
  function Capture(html: string, withVar: bool): Option<string> {
    match MatchFrom(html, 0, withVar)
    case None => None
    case Some((b, e)) => Some(html[b..e])
  }

  /** The patterns in the order the source lists them: with `var` first, then without. */
  const Patterns: seq<bool> := [true, false]

  /** The loop over the patterns: the first capture that parses wins; a capture that fails to
      parse falls through to the next pattern; with no pattern left the result is null. */
  function TryPatterns(html: string, parse: JsonParser, patterns: seq<bool>): Option<Json>
  {
    if |patterns| == 0 then None
    else
      match Capture(html, patterns[0])
      case Some(c) =>
        (match parse(c)
         case Ok(v) => Some(v)
         case Err(_) => TryPatterns(html, parse, patterns[1..]))
      case None => TryPatterns(html, parse, patterns[1..])
  }

  /** The value `extractPlayerResponse(html)` returns, `None` for null. */
  function PlayerResponseOf(html: string, parse: JsonParser): Option<Json> {
    TryPatterns(html, parse, Patterns)
  }

  /** `extractPlayerResponse` as written: a `for` loop over the two patterns, returning the first
      capture that parses and continuing past one that does not. */
  method ExtractPlayerResponse(html: string, parse: JsonParser) returns (r: Option<Json>)
    ensures r == PlayerResponseOf(html, parse)
  {
    var patterns := Patterns;
    for i := 0 to |patterns|
      invariant TryPatterns(html, parse, patterns[i..]) == TryPatterns(html, parse, patterns)
    {
      assert patterns[i..][1..] == patterns[i + 1..];
      var m := Capture(html, patterns[i]);
      if m.Some? {
        var parsed := parse(m.value);
        if parsed.Ok? {
          return Some(parsed.value);
        }
      }
    }
    return None;
  }

  /** A player response is always the parse of a capture of one of the two patterns: a piece of the
      page that starts with `{`, ends with `}` and has no line break inside. */
  lemma PlayerResponseComesFromCapture(html: string, parse: JsonParser, v: Json)
    requires PlayerResponseOf(html, parse) == Some(v)
    ensures exists w: bool :: FromCapture(html, parse, w, v)
  {
    TwoPatterns(html, parse);
    var w := Parsed(html, parse, true).Some?;
    assert Parsed(html, parse, w) == Some(v);
    ParsedFromCapture(html, parse, w, v);
  }

  lemma ParsedFromCapture(html: string, parse: JsonParser, w: bool, v: Json)
    requires Parsed(html, parse, w) == Some(v)
    ensures FromCapture(html, parse, w, v)
  {
    var (b, e) := MatchFrom(html, 0, w).value;
    assert Capture(html, w) == Some(html[b..e]);
  }

  /** The value the pattern's capture parses to, if it matches and parses. */
  function Parsed(html: string, parse: JsonParser, withVar: bool): Option<Json> {
    match Capture(html, withVar)
    case None => None
    case Some(c) => if parse(c).Ok? then Some(parse(c).value) else None
  }

  /** The loop over the two patterns unrolled. */
  lemma TwoPatterns(html: string, parse: JsonParser)
    ensures PlayerResponseOf(html, parse) ==
      if Parsed(html, parse, true).Some? then Parsed(html, parse, true) else Parsed(html, parse, false)
  {
    var rest := Patterns[1..];
    assert Patterns[0] == true && rest == [false] && rest[0] == false && rest[1..] == [];
    assert TryPatterns(html, parse, rest[1..]) == None;
    assert TryPatterns(html, parse, rest) == Parsed(html, parse, false);
  }

  /** `v` is the parse of the capture of pattern `w`, a piece `html[b..e]` of the page that starts
      with `{`, ends with `}` and has no line break inside. */
  predicate FromCapture(html: string, parse: JsonParser, w: bool, v: Json) {
    match MatchFrom(html, 0, w)
    case None => false
    case Some((b, e)) => ObjectShaped(html, b, e) && parse(html[b..e]) == Ok(v)
  }

  /** A capture of the `var` pattern that parses takes precedence over the second pattern. */
  lemma VarPatternFirst(html: string, parse: JsonParser, c: string, v: Json)
    requires Capture(html, true) == Some(c) && parse(c) == Ok(v)
    ensures PlayerResponseOf(html, parse) == Some(v)
  {
    TwoPatterns(html, parse);
  }

  /** A page that never mentions `ytInitialPlayerResponse` has no player response. */
  lemma NoAssignmentNoPlayerResponse(html: string, parse: JsonParser)
    requires forall i :: 0 <= i <= |html| ==> !MatchesAt(html, VarName, false, i)
    ensures PlayerResponseOf(html, parse) == None
  {
    NoMatchFrom(html, 0, true);
    NoMatchFrom(html, 0, false);
    TwoPatterns(html, parse);
  }

  lemma NoMatchFrom(html: string, p: nat, withVar: bool)
    requires p <= |html|
    requires forall i :: 0 <= i <= |html| ==> !MatchesAt(html, VarName, false, i)
    ensures MatchFrom(html, p, withVar) == None
  {
  }

  /** The `languageCode` of a caption track is exactly `lang`. */
  predicate HasLanguage(track: Json, lang: string) {
    Get(Some(track), "languageCode") == Some(JStr(lang))
  }

  /** `tracks.find((t) => t.languageCode === lang)`. The callback throws on a null element, which
      ends the search with an error (`Err(())`) unless a match came before it. */
  function FindTrack(tracks: seq<Json>, lang: string): (r: Result<Option<Json>, ()>)
    ensures r.Ok? && r.value.Some? ==>
      exists i :: 0 <= i < |tracks| && tracks[i] == r.value.value && HasLanguage(tracks[i], lang) &&
        forall j :: 0 <= j < i ==> !HasLanguage(tracks[j], lang)
    ensures r.Ok? && r.value.None? ==> forall i :: 0 <= i < |tracks| ==> !HasLanguage(tracks[i], lang)
    ensures (forall i :: 0 <= i < |tracks| ==> tracks[i] != JNull) ==> r.Ok?
  {
    if |tracks| == 0 then Ok(None)
    else if tracks[0] == JNull then Err(())
    else if HasLanguage(tracks[0], lang) then Ok(Some(tracks[0]))
    else
      var r := FindTrack(tracks[1..], lang);
      assert forall i :: 1 <= i < |tracks| ==> tracks[i] == tracks[1..][i - 1];
      if r.Ok? && r.value.Some? then
        var i :| 0 <= i < |tracks[1..]| && tracks[1..][i] == r.value.value && HasLanguage(tracks[1..][i], lang) &&
          (forall j :: 0 <= j < i ==> !HasLanguage(tracks[1..][j], lang));
        assert tracks[i + 1] == r.value.value;
        r
      else r
  }

  /** `jaTrack || enTrack || captionTracks[0]`, after both searches have run. */
  function SelectTrack(tracks: seq<Json>): Result<Json, ()>
    requires |tracks| > 0
  {
    var ja := FindTrack(tracks, "ja");
    var en := FindTrack(tracks, "en");
    if ja.Err? || en.Err? then Err(())
    else if ja.value.Some? then Ok(ja.value.value)
    else if en.value.Some? then Ok(en.value.value)
    else Ok(tracks[0])
  }

  /** The first track in list order whose language is `lang`. */
  predicate FirstWithLanguage(tracks: seq<Json>, lang: string, t: Json) {
    exists i :: 0 <= i < |tracks| && tracks[i] == t && HasLanguage(tracks[i], lang) &&
      forall j :: 0 <= j < i ==> !HasLanguage(tracks[j], lang)
  }

  /** Track preference: with no null in the list, the choice is the first Japanese track if there is
      one, else the first English track if there is one, else the first track. */
  lemma TrackPreference(tracks: seq<Json>)
    requires |tracks| > 0
    requires forall i :: 0 <= i < |tracks| ==> tracks[i] != JNull
    ensures SelectTrack(tracks).Ok?
    ensures var t := SelectTrack(tracks).value;
      if exists i :: 0 <= i < |tracks| && HasLanguage(tracks[i], "ja") then FirstWithLanguage(tracks, "ja", t)
      else if exists i :: 0 <= i < |tracks| && HasLanguage(tracks[i], "en") then FirstWithLanguage(tracks, "en", t)
      else t == tracks[0]
  {
  }
}
