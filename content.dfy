/** Fetching what is to be summarized: `fetchContent` routes a URL to `fetchYouTubeContent` (title
    and captions or description of a video) or to `fetchWebContent` (title and main text of a page).
    The network, `JSON.parse` and the URL parser are not part of this model: they are the fields of
    an `Env` the caller passes in. */
module Content {
  import opened Wrappers
  import opened JsText
  import opened Json
  import opened YouTubeUrl
  import opened Captions
  import opened HtmlExtract
  import opened PlayerResponse

  /** `MAX_TEXT_LENGTH`: the most characters of text handed to the summarizer. */
  const MaxTextLength: nat := 30000

  /** A response whose body has been read with `response.text()`. */
  datatype Response = Response(status: nat, body: string)

  /** `response.ok`: a status in the range 200 to 299. */
  predicate IsOk(r: Response) {
    200 <= r.status <= 299
  }

  /** `fetch(url)`: the response, or the message of the error it rejects with. */
  type Fetcher = string -> Result<Response, string>

  /** The outside world as the background worker sees it: `fetch` for GET requests, the Gemini POST
      (given the request URL and the prompt it carries), `JSON.parse` and `new URL`. */
  datatype Env = Env(fetch: Fetcher, post: (string, string) -> Result<Response, string>,
                     parseJson: JsonParser, parseUrl: UrlParser)

  /** The `type` field of a content object: `"youtube"` or `"web"`. */
  datatype SourceType = YouTube | Web

  /** The object `fetchContent` resolves to. */
  datatype Content = Content(kind: SourceType, title: string, text: string)

  /** Why `fetchYouTubeCaptions` threw. Every one of these is caught by its caller, which then falls
      back to the video description. */
  datatype CaptionFailure =
    | NoPlayerResponse
    | NoCaptionTracks
    | TrackLookupThrew
    | FetchRejected(message: string)
    | CaptionHttpError(status: nat)

  /** `playerResponse?.captions?.playerCaptionsTracklistRenderer?.captionTracks`. */
  function CaptionTracks(pr: Option<Json>): Option<Json> {
    Get(Get(Get(pr, "captions"), "playerCaptionsTracklistRenderer"), "captionTracks")
  }

  /** `track.baseUrl`, which `fetch` receives as a string; anything but a string URL is taken to be
      the text `"undefined"`. */
  function CaptionUrl(track: Json): string {
    match Get(Some(track), "baseUrl")
    case Some(JStr(u)) => u
    case _ => "undefined"
  }

  /** `fetchYouTubeCaptions`: the caption text of the preferred track. A falsy track list, or an
      object whose `length` is 0, counts as no tracks; any other value that is not an array fails at
      `find`, as does a null element reached before a match. */
  function FetchYouTubeCaptions(pr: Option<Json>, fetch: Fetcher): Result<string, CaptionFailure> {
    if !Truthy(pr) then Err(NoPlayerResponse)
    else
      var tracks := CaptionTracks(pr);
      if !Truthy(tracks) then Err(NoCaptionTracks)
      else
        match tracks.value
        case JArr(items) =>
          if |items| == 0 then Err(NoCaptionTracks)
          else
            (match SelectTrack(items)
             case Err(_) => Err(TrackLookupThrew)
             case Ok(track) =>
               match fetch(CaptionUrl(track))
               case Err(m) => Err(FetchRejected(m))
               case Ok(resp) =>
                 if !IsOk(resp) then Err(CaptionHttpError(resp.status)) else Ok(CaptionText(resp.body)))
        case JObj(f) => if "length" in f && f["length"] == JNum(0) then Err(NoCaptionTracks) else Err(TrackLookupThrew)
        case _ => Err(TrackLookupThrew)
  }

  const NoVideoIdMessage: string := "YouTube動画IDを取得できませんでした"
  const UnknownTitle: string := "タイトル不明"

  /** The watch page `fetchYouTubeContent` downloads for a video id. */
  function WatchPageUrl(videoId: string): string {
    "https://www.youtube.com/watch?v=" + videoId
  }

  /** The text of a video before truncation: the captions when there are any, else the description. */
  function VideoText(title: string, captions: string, description: string): string {
    if captions != "" then "タイトル: " + title + "\n\n字幕:\n" + captions
    else "タイトル: " + title + "\n\n説明:\n" + description
  }

  /** `x || fallback` for a string read out of the player response. */
  function StringOr(v: Option<Json>, fallback: string): string {
    match NonEmptyString(v)
    case Some(s) => s
    case None => fallback
  }

  /** `fetchYouTubeContent`. A failed caption download is swallowed: the captions are then "". */
  function FetchYouTubeContent(url: string, env: Env): Result<Content, string> {
    var videoId := ExtractVideoId(env.parseUrl(url));
    if videoId.None? || videoId.value == "" then Err(NoVideoIdMessage)
    else
      match env.fetch(WatchPageUrl(videoId.value))
      case Err(m) => Err(m)
      case Ok(resp) =>
        if !IsOk(resp) then Err("YouTubeページの取得に失敗しました (" + NatToString(resp.status) + ")")
        else
          var pr := PlayerResponseOf(resp.body, env.parseJson);
          var title := StringOr(Get(Get(pr, "videoDetails"), "title"), UnknownTitle);
          var description := StringOr(Get(Get(pr, "videoDetails"), "shortDescription"), "");
          var captions := match FetchYouTubeCaptions(pr, env.fetch) case Ok(c) => c case Err(_) => "";
          Ok(Content(YouTube, title, Take(VideoText(title, captions, description), MaxTextLength)))
  }

  /** `fetchWebContent`: the title is the main-content title, else the `<title>` text, else the URL. */
  function FetchWebContent(url: string, env: Env): Result<Content, string> {
    match env.fetch(url)
    case Err(m) => Err(m)
    case Ok(resp) =>
      if !IsOk(resp) then Err("ページの取得に失敗しました (" + NatToString(resp.status) + ")")
      else
        var main := ExtractMainContent(resp.body);
        var title :=
          if main.title != "" then main.title
          else match ExtractTitleFromHtml(resp.body)
            case Some(t) => if t != "" then t else url
            case None => url;
        Ok(Content(Web, title, Take(main.textContent, MaxTextLength)))
  }

  /** The test `fetchContent` routes on: a YouTube host and a non-empty video id. */
  predicate RoutesToYouTube(url: string, env: Env) {
    var u := env.parseUrl(url);
    var id := ExtractVideoId(u);
    IsYouTubeUrl(u) && id.Some? && id.value != ""
  }

  /** `fetchContent`. */
  function FetchContent(url: string, env: Env): Result<Content, string> {
    if RoutesToYouTube(url, env) then FetchYouTubeContent(url, env) else FetchWebContent(url, env)
  }

  /** The kind of content tells which way the URL was routed: YouTube content exactly for a YouTube
      host with a non-empty video id. */
  lemma ContentKindFollowsRoute(url: string, env: Env)
    requires FetchContent(url, env).Ok?
    ensures FetchContent(url, env).value.kind == YouTube <==> RoutesToYouTube(url, env)
  {
  }

  /** A URL that does not parse, or whose host is not one of the four YouTube hosts, is fetched as a
      web page, even when it carries a `v` parameter. */
  lemma OtherHostsFetchedAsWeb(url: string, env: Env)
    requires env.parseUrl(url).None? || !IsYouTubeHost(env.parseUrl(url).value.hostname)
    ensures !IsYouTubeUrl(env.parseUrl(url)) && FetchContent(url, env) == FetchWebContent(url, env)
  {
  }

  /** Every content text fits in `MAX_TEXT_LENGTH` characters. */
  lemma ContentTextBounded(url: string, env: Env)
    requires FetchContent(url, env).Ok?
    ensures |FetchContent(url, env).value.text| <= MaxTextLength
  {
  }

  /** A routed YouTube URL never fails for want of a video id; it fails only when the watch page
      does: captions never make it fail. */
  lemma YouTubeFailsOnlyOnWatchPage(url: string, env: Env)
    requires RoutesToYouTube(url, env)
    ensures var page := env.fetch(WatchPageUrl(ExtractVideoId(env.parseUrl(url)).value));
      FetchContent(url, env).Ok? <==> page.Ok? && IsOk(page.value)
  {
  }

  /** The video text names the title, then carries the captions when there are any and the
      description otherwise. */
  lemma VideoTextShape(title: string, captions: string, description: string)
    ensures var prefix := "タイトル: " + title + "\n\n";
      var t := VideoText(title, captions, description);
      StartsWith(t, prefix) &&
      (captions != "" ==> t[|prefix|..] == "字幕:\n" + captions) &&
      (captions == "" ==> t[|prefix|..] == "説明:\n" + description)
  {
    var prefix := "タイトル: " + title + "\n\n";
    var t := VideoText(title, captions, description);
    if captions != "" {
      assert t == prefix + ("字幕:\n" + captions);
    } else {
      assert t == prefix + ("説明:\n" + description);
    }
  }

  /** A YouTube content title is never empty: the video's title, or the placeholder. */
  lemma YouTubeTitleNonEmpty(url: string, env: Env)
    requires FetchYouTubeContent(url, env).Ok?
    ensures FetchYouTubeContent(url, env).value.title != ""
  {
  }

  /** The web title's three-step fallback collapses to two, since the main-content title is itself the
      `<title>` text: the trimmed `<title>` text when it is not empty, else the URL. */
  lemma WebTitleFallback(url: string, env: Env)
    requires FetchWebContent(url, env).Ok?
    ensures var body := env.fetch(url).value.body;
      var t := ExtractTitleFromHtml(body);
      FetchWebContent(url, env).value.title == if t.Some? && t.value != "" then t.value else url
  {
  }

  /** With a player response that lists caption tracks without nulls, and a caption download that
      succeeds, the captions are the text of the preferred track's document. */
  lemma CaptionsOfPreferredTrack(pr: Json, items: seq<Json>, fetch: Fetcher)
    requires CaptionTracks(Some(pr)) == Some(JArr(items)) && |items| > 0
    requires forall i :: 0 <= i < |items| ==> items[i] != JNull
    requires var track := SelectTrack(items);
      track.Ok? && fetch(CaptionUrl(track.value)).Ok? && IsOk(fetch(CaptionUrl(track.value)).value)
    ensures var resp := fetch(CaptionUrl(SelectTrack(items).value)).value;
      FetchYouTubeCaptions(Some(pr), fetch) == Ok(CaptionText(resp.body))
  {
    assert Truthy(Some(pr)) by {
      assert Get(Some(pr), "captions").Some?;
    }
  }
}
