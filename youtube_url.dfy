/** Classifying a target URL: `isYouTubeUrl` and `extractVideoId`. The URL reaches the model
    already parsed (the WHATWG URL parser is a library); a string the parser rejects is `None`. */
module YouTubeUrl {
  import opened Wrappers
  import opened JsText

  /** What the extension reads from a parsed URL: `hostname`, `pathname` and the decoded
      name/value pairs of `searchParams`, in order. */
  datatype Url = Url(hostname: string, pathname: string, query: seq<(string, string)>)

  /** A URL parser as a parameter: `None` where `new URL(url)` throws. */
  type UrlParser = string -> Option<Url>

  predicate IsYouTubeHost(host: string) {
    host == "www.youtube.com" || host == "youtube.com" || host == "m.youtube.com" || host == "youtu.be"
  }

  /** `isYouTubeUrl`: the URL parses and its hostname is one of the four YouTube hosts. */
  predicate IsYouTubeUrl(u: Option<Url>) {
    u.Some? && IsYouTubeHost(u.value.hostname)
  }

  /** `searchParams.get(name)`: the value of the first pair with that name. */
  function SearchParam(query: seq<(string, string)>, name: string): (r: Option<string>)
    ensures r.Some? ==>
      exists i :: 0 <= i < |query| && query[i] == (name, r.value) && forall j :: 0 <= j < i ==> query[j].0 != name
    ensures r.None? ==> forall i :: 0 <= i < |query| ==> query[i].0 != name
  {
    if |query| == 0 then None
    else if query[0].0 == name then Some(query[0].1)
    else
      var r := SearchParam(query[1..], name);
      assert forall i :: 1 <= i < |query| ==> query[i] == query[1..][i - 1];
      if r.Some? then
        var i :| 0 <= i < |query[1..]| && query[1..][i] == (name, r.value) &&
          (forall j :: 0 <= j < i ==> query[1..][j].0 != name);
        assert query[i + 1] == (name, r.value);
        r
      else r
  }

  /** The alternatives of `/^\/(shorts|live|embed|v)\/([^/?]+)/`, in the order the regex tries them. */
  const VideoPathPrefixes: seq<string> := ["/shorts/", "/live/", "/embed/", "/v/"]

  predicate IsIdChar(c: char) {
    c != '/' && c != '?'
  }

  /** `id` stands right after position `k` of `p` as a maximal non-empty run of `[^/?]`. */
  predicate IdSegmentAt(p: string, k: nat, id: string) {
    && |id| > 0 && k + |id| <= |p| && p[k..k + |id|] == id
    && (forall i :: 0 <= i < |id| ==> IsIdChar(id[i]))
    && (k + |id| == |p| || !IsIdChar(p[k + |id|]))
  }

  /** The id the path regex captures when the path starts with `prefix`. */
  function IdAfter(p: string, prefix: string): Option<string>
  {
    if StartsWith(p, prefix) then
      var j := SpanWhile(p, |prefix|, IsIdChar);
      if j > |prefix| then Some(p[|prefix|..j]) else None
    else None
  }

  /** `pathname.match(/^\/(shorts|live|embed|v)\/([^/?]+)/)?.[2]`. */
  function PathVideoId(p: string): Option<string> {
    var a := IdAfter(p, VideoPathPrefixes[0]);
    if a.Some? then a else
    var b := IdAfter(p, VideoPathPrefixes[1]);
    if b.Some? then b else
    var c := IdAfter(p, VideoPathPrefixes[2]);
    if c.Some? then c else IdAfter(p, VideoPathPrefixes[3])
  }

  /** `pathname.slice(1).split("/")[0]`: the path after its first character, up to the first `/`
      or to its end. */
  function ShortLinkId(p: string): (id: string)
    ensures var rest := if |p| == 0 then p else p[1..];
      StartsWith(rest, id) && (|id| == |rest| || rest[|id|] == '/')
    ensures forall i :: 0 <= i < |id| ==> id[i] != '/'
  {
    var rest := if |p| == 0 then p else p[1..];
    rest[..SpanWhile(rest, 0, c => c != '/')]
  }

  /** `extractVideoId`: for youtu.be the first path segment (possibly empty); otherwise a non-empty
      `v` parameter; otherwise the segment after `/shorts/`, `/live/`, `/embed/` or `/v/`; otherwise null. */
  function ExtractVideoId(u: Option<Url>): Option<string> {
    match u
    case None => None
    case Some(url) =>
      if url.hostname == "youtu.be" then Some(ShortLinkId(url.pathname))
      else
        var v := SearchParam(url.query, "v");
        if v.Some? && v.value != "" then v
        else PathVideoId(url.pathname)
  }

  /** The path regex captures exactly a maximal `[^/?]+` run right after one of its four prefixes,
      the first prefix the path starts with. */
  lemma PathVideoIdSpec(p: string, id: string)
    ensures PathVideoId(p) == Some(id) <==>
      exists k :: 0 <= k < |VideoPathPrefixes| && StartsWith(p, VideoPathPrefixes[k])
                  && IdSegmentAt(p, |VideoPathPrefixes[k]|, id)
  {
    var P := VideoPathPrefixes;
    // The four prefixes differ in their second character, so at most one of them starts the path.
    assert P[0][1] == 's' && P[1][1] == 'l' && P[2][1] == 'e' && P[3][1] == 'v';
    forall k | 0 <= k < 4 ensures StartsWith(p, P[k]) ==> p[1] == P[k][1] {
      if StartsWith(p, P[k]) { assert p[..|P[k]|][1] == p[1]; }
    }
    forall k | 0 <= k < 4
      ensures IdAfter(p, P[k]) == Some(id) <==> StartsWith(p, P[k]) && IdSegmentAt(p, |P[k]|, id)
    {
      IdAfterSpec(p, P[k], id);
    }
  }

  lemma IdAfterSpec(p: string, prefix: string, id: string)
    ensures IdAfter(p, prefix) == Some(id) <==> StartsWith(p, prefix) && IdSegmentAt(p, |prefix|, id)
  {
    if StartsWith(p, prefix) {
      var j := SpanWhile(p, |prefix|, IsIdChar);
      if IdSegmentAt(p, |prefix|, id) {
        var e := |prefix| + |id|;
        forall i | |prefix| <= i < e ensures IsIdChar(p[i]) {
          assert p[i] == id[i - |prefix|];
        }
        assert j == e;
      }
    }
  }

  /** Only a youtu.be link can yield an empty id; every other id `extractVideoId` returns is non-empty. */
  lemma EmptyIdOnlyForShortLinks(u: Option<Url>)
    requires ExtractVideoId(u) == Some("")
    ensures u.Some? && u.value.hostname == "youtu.be"
  {
  }

  /** The precedence of `extractVideoId`: a `v` parameter beats the path on every host but youtu.be,
      and the path decides when the first `v` is empty or there is none. */
  lemma VideoIdPrecedence(url: Url, id: string)
    requires url.hostname != "youtu.be"
    ensures SearchParam(url.query, "v") == Some(id) && id != "" ==> ExtractVideoId(Some(url)) == Some(id)
    ensures (forall i :: 0 <= i < |url.query| ==> url.query[i].0 != "v") ==>
      ExtractVideoId(Some(url)) == PathVideoId(url.pathname)
    ensures SearchParam(url.query, "v") == Some("") ==> ExtractVideoId(Some(url)) == PathVideoId(url.pathname)
  {
  }
}
