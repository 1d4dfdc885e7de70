# Link summarizer, modelled in Dafny

The link summarizer is a browser extension. It takes a link or the current page and fetches what it points to:

- for a YouTube video, the title plus the captions, or the description when there are no captions;
- for any other page, the title and the main text.

It wraps that text in a fixed Japanese prompt and sends it to the Gemini API. It keeps the job's progress in one stored `summaryData` record. A separate summary page polls that record, then shows the result or the error, after cleaning the returned HTML.

This project models the logic of the extension's background worker (`background.js`) and its summary page (`summary.js`), and proves what that logic guarantees:

- how a URL is classified and which video id it yields;
- how the embedded player response is found;
- which caption track is chosen;
- how captions and page text are cleaned;
- the limit on text length;
- the prompt's structure;
- which message each API failure produces;
- the sequence of writes a job makes;
- what the summary page does with each record;
- that the HTML cleaner only deletes.

Every regular expression the extension uses is a scanning function with JavaScript's semantics:

- the leftmost match wins;
- a lazy `*?` stops at the first end that works;
- `/i` compares ASCII letters without case;
- `/g` resumes right after each match;
- `\s` is the ECMAScript white-space and line-terminator set;
- `.` stops at line terminators.

One generic function, `JsReplace.ReplaceMatches`, states a global `replace` for every pattern.

Modules, one per file:

| module | file | models |
|---|---|---|
| `Wrappers` | wrappers.dfy | `Option` and `Result` |
| `JsText` | js_text.dfy | `\s`, `\w`, `/i`, `trim`, `slice`, `join`, the decimal text of a status |
| `JsReplace` | js_replace.dfy | global `replace`, and "is a subsequence of" |
| `Json` | json.dfy | values `JSON.parse` yields, `?.` reads, truthiness |
| `YouTubeUrl` | youtube_url.dfy | `isYouTubeUrl`, `extractVideoId` |
| `HtmlExtract` | html_extract.dfy | `extractMainContent`, `extractTitleFromHtml` |
| `Captions` | captions.dfy | `parseCaptionXml` (a `while` loop) |
| `PlayerResponse` | player_response.dfy | `extractPlayerResponse` (a `for` loop), caption-track choice |
| `Content` | content.dfy | `fetchContent`, `fetchYouTubeContent`, `fetchYouTubeCaptions`, `fetchWebContent` |
| `Gemini` | gemini.dfy | `buildPrompt`, `callGeminiApi` |
| `Job` | job.dfy | `handleSummarize` and `saveSummaryError`, as a class `SummaryStore` holding `summaryData` |
| `Viewer` | viewer.dfy | `sanitizeHtml`, the poll step of `pollForResult`, the badge of `showResult` |

## Model

| member | source | states |
|---|---|---|
| JsText.Trim | background.js:219 | `trim` returns the piece of the string between a leading and a trailing run of whitespace; that piece has no whitespace at either end, and it is "" exactly for an all-whitespace string |
| JsText.TrimKeepsAbsent | background.js:219 | `trim` introduces no character that was not in the string |
| JsText.TrimKeepsNoAdjacentSpaces | background.js:274 | trimming cannot create two adjacent whitespace characters |
| JsText.Take | background.js:157 | `slice(0, n)`: the first `n` characters, or the whole string when it is shorter |
| JsText.NatToStringRoundTrip | background.js:323 | the decimal text of a status put in a message reads back as that status |
| JsReplace.ReplaceWithoutMatch | background.js:251 | a global replace whose pattern matches nowhere returns its input unchanged |
| JsReplace.NoNewCharacter | background.js:266 | a replace never produces a character that is in neither the input nor the replacement |
| JsReplace.ReplaceCharRemovesIt | background.js:218 | replacing every occurrence of one character by a text without it leaves no occurrence of that character |
| JsReplace.DeletionIsSubsequence | summary.js:69-71 | replacing every match by "" leaves a subsequence of the input |
| JsReplace.SubsequenceTransitive | summary.js:63-71 | deletions applied one after another still leave a subsequence of the original |
| Json.Get | background.js:138-140 | `v?.key` is defined exactly when `v` is an object that has the key, and then it is that key's value |
| Json.NonEmptyString | background.js:138 | `x \|\| fallback` keeps `x` exactly when `x` is a non-empty string |
| YouTubeUrl.SearchParam | background.js:111 | `searchParams.get` returns the value of a pair with that name that no earlier pair shares (the first one), and null only when no pair has it |
| YouTubeUrl.ShortLinkId | background.js:108 | a youtu.be id is a prefix of the path after its first character that ends at the first `/` or at the end of the path, and it contains no `/` |
| YouTubeUrl.PathVideoIdSpec | background.js:114-115 | the path regex yields `id` exactly when the path starts with one of `/shorts/`, `/live/`, `/embed/` or `/v/` and `id` is the maximal non-empty run of characters other than `/` and `?` after it |
| YouTubeUrl.IdAfterSpec | background.js:114 | the same statement for one prefix |
| YouTubeUrl.EmptyIdOnlyForShortLinks | background.js:104-119 | only a youtu.be link can yield an empty id |
| YouTubeUrl.VideoIdPrecedence | background.js:104-120 | `extractVideoId` on hosts other than youtu.be: a non-empty `v` parameter wins; an empty or missing `v` leaves the decision to the path |
| HtmlExtract.BlockLen | background.js:251-256 | a block match starts with `<tag` in any case and ends with the first `</tag>` after it, and there is a match whenever a `</tag>` follows `<tag` |
| HtmlExtract.StripBoilerplateDeletesOnly | background.js:250-256 | removing script, style, nav, header, footer and aside blocks only deletes characters |
| HtmlExtract.StripBoilerplateWithoutBlocks | background.js:250-256 | a page that opens none of the six blocks passes through unchanged |
| HtmlExtract.RemoveBlocksWithoutOpening | background.js:251 | a page that never opens a block of that tag passes through unchanged |
| HtmlExtract.FindArticleClose | background.js:259 | the capture of the article regex ends at the first `</article>` or `</main>` |
| HtmlExtract.ArticleAt | background.js:259 | a match at a position starts with `<article` or `<main` in any case; its capture starts after the first `>` and ends at the first `</article>` or `</main>` after that; and there is a match wherever such an opening is followed by a `>` and then a closing tag |
| HtmlExtract.ArticleFrom | background.js:259 | the article match is the leftmost one: no earlier position starts a match, and none at all when there is no match |
| HtmlExtract.TitleAt | background.js:280 | a title match starts with `<title` in any case; its capture starts after the first `>` and ends at the first `</title>` after that; and there is a match wherever `<title` is followed by a `>` and then a `</title>` |
| HtmlExtract.TitleFrom | background.js:280 | the title match is the leftmost one, and there is none only when no position starts a match |
| HtmlExtract.TitleOfFirstMatch | background.js:279-282 | `extractTitleFromHtml` returns the trimmed capture of the leftmost title match |
| HtmlExtract.NoTitleWithoutMatch | background.js:279-282 | `extractTitleFromHtml` returns null exactly when no position starts a title match |
| HtmlExtract.CollapseSpacesShape | background.js:273 | after `\s+` becomes " ", no two whitespace characters are adjacent, and the text starts with whitespace only if it did before |
| HtmlExtract.MainContentTextShape | background.js:245-277 | `extractMainContent`: the main text has no run of two whitespace characters and no whitespace at either end |
| HtmlExtract.StripTagsLeavesNoTag | background.js:266 | once tags are replaced by spaces, no `<…>` tag is left |
| HtmlExtract.NoCloseAngleLeft | background.js:266 | a `<` that is followed by a character other than `>` and starts no tag has no `>` anywhere after it |
| Captions.TextAt | background.js:209 | a match starts with `<text`; its body starts after the first `>` and ends at the first `</text>` after that, where the match ends; and there is a match wherever `<text` is followed by a `>` and then a `</text>` |
| Captions.ExecText | background.js:211 | `exec` with `lastIndex` finds the leftmost match at or after `lastIndex`, and none only when no position from there starts one; its body starts after `lastIndex`, so the loop advances |
| Captions.DecodeCaption | background.js:212-219 | a decoded segment is empty or has no whitespace at either end |
| Captions.DecodeCaptionHasNoLineFeed | background.js:218-219 | newlines become spaces, so a decoded segment has no line feed |
| Captions.ParseCaptionXml | background.js:206-225 | the `while` loop returns the non-empty decoded segments, in document order, joined by single spaces |
| Captions.SegmentsStep | background.js:211-217 | each `exec` step contributes one segment, and the loop stops at the first failed `exec` |
| Captions.KeptCons | background.js:215-217 | a segment is pushed exactly when it decodes to a non-empty string |
| Captions.KeptTrimmed | background.js:212-222 | every pushed segment is non-empty and has no whitespace at either end |
| Captions.JoinKeepsEnds | background.js:224 | joining such segments with " " gives "" only for no segments, and never whitespace at either end |
| Captions.KeptHasNoLineFeed | background.js:212-222 | no pushed segment has a line feed |
| Captions.JoinHasNoLineFeed | background.js:224 | joining segments without line feeds with " " gives a string without one |
| Captions.CaptionTextHasNoLineFeed | background.js:206-225 | the caption text `parseCaptionXml` returns has no line feed |
| Captions.CaptionTextTrimmed | background.js:206-225 | the caption text has no whitespace at either end |
| Captions.CaptionTextEmptyIff | background.js:206-225 | `parseCaptionXml` (the function `CaptionText` its loop computes): the caption text is "" exactly when every `<text>` element decodes to "" |
| Captions.KeptEmptyIff | background.js:215-217 | nothing is pushed exactly when every segment decodes to "" |
| Captions.NoTextElementNoCaption | background.js:209-211 | a document with no `<text` has no segments |
| Captions.AmpersandDecodedFirst | background.js:213-214 | `&amp;` is decoded first, so `&amp;lt;` becomes `<` |
| Captions.NbspKept | background.js:212-219 | `&nbsp;` is not decoded in captions |
| Captions.NbspNotAnEntity | background.js:213-217 | none of the five entity replacements touches `&nbsp;` |
| PlayerResponse.LazyObjectEnd | background.js:163-164 | the lazy `.+?\}\s*;` stops at the first `}` that `\s*;` follows, and never crosses a line terminator |
| PlayerResponse.OpeningAt | background.js:164 | finds the `{` exactly when `ytInitialPlayerResponse`, spaces, `=`, spaces, `{` and a character other than a line terminator start at the position, and that `{` is the only one |
| PlayerResponse.AssignmentAt | background.js:164 | a capture follows such an opening, runs from its `{` to the first `}` that `\s*;` follows (the end the lazy scan finds) and has no line break inside; and there is a match wherever an opening is followed by such a `}` |
| PlayerResponse.VarSpaces | background.js:163 | the greedy `var\s+` ends exactly where `var` and at least one space end and no further space follows, and there is no end when `var` is not followed by a space |
| PlayerResponse.PatternAt | background.js:163-164 | the second pattern is the assignment match at the position; the `var` pattern is `var`, at least one space, then the assignment match right after the spaces, found whenever there is one |
| PlayerResponse.MatchFrom | background.js:168 | `match` returns the match at the first position from the start where `PatternAt` matches (no earlier position matches), and none only when no position matches; its capture is `{…}` with no line break inside |
| PlayerResponse.ExtractPlayerResponse | background.js:161-178 | the `for` loop returns the parse of the first capture that parses, trying the `var` pattern first and skipping a capture that fails to parse, and returns null when none parses |
| PlayerResponse.TwoPatterns | background.js:167-177 | unrolled, the loop yields the `var` pattern's parsed capture when there is one, else the second pattern's |
| PlayerResponse.PlayerResponseComesFromCapture | background.js:161-178 | every player response is the parse of a `{…}` capture of one of the two patterns |
| PlayerResponse.ParsedFromCapture | background.js:168-171 | a parsed capture is a `{…}` piece of the page |
| PlayerResponse.VarPatternFirst | background.js:162-171 | a capture of the `var` pattern that parses takes precedence |
| PlayerResponse.NoAssignmentNoPlayerResponse | background.js:161-178 | a page that never mentions `ytInitialPlayerResponse` yields null |
| PlayerResponse.NoMatchFrom | background.js:163-168 | neither pattern matches where the variable name never occurs |
| PlayerResponse.FindTrack | background.js:192-193 | `find` returns the first track with that language, or none when no track has it, and fails only on a null element |
| PlayerResponse.TrackPreference | background.js:185-194 | the track `SelectTrack` picks, with no null track: the first Japanese track, else the first English track, else the first track |
| Content.OtherHostsFetchedAsWeb | background.js:83-102 | `isYouTubeUrl` is false for a URL that does not parse or has another host, and such a URL is fetched as a web page even with a `v` parameter |
| Content.ContentKindFollowsRoute | background.js:83-88 | `fetchContent`: content is YouTube content exactly when the host is one of the four YouTube hosts and the video id is non-empty |
| Content.ContentTextBounded | background.js:83-88 | the content text of either kind is at most 30000 characters |
| Content.YouTubeFailsOnlyOnWatchPage | background.js:122-158 | `fetchYouTubeContent`: a routed YouTube URL fails exactly when the watch-page request fails or is not ok; a caption failure never makes it fail |
| Content.VideoTextShape | background.js:150-152 | the video text is `タイトル: <title>` followed by the captions when they are non-empty, else by the description |
| Content.YouTubeTitleNonEmpty | background.js:138 | the video title falls back to `タイトル不明`, so it is never empty |
| Content.WebTitleFallback | background.js:227-243 | `fetchWebContent`: the web title is the trimmed `<title>` text when that is non-empty, else the URL |
| Content.CaptionsOfPreferredTrack | background.js:180-204 | `fetchYouTubeCaptions`: with tracks present and a caption download that succeeds, the captions are the text of the preferred track's document |
| Gemini.UnframeFramed | background.js:338-426 | head, label, body and text can be read back from the framed prompt |
| Gemini.PromptRoundTrip | background.js:334-427 | `buildPrompt`: the prompt's label gives back the content's kind, and its end gives back the content text verbatim |
| Gemini.PromptInjective | background.js:334-427 | contents that differ in kind or text yield different prompts (the title is not part of the prompt) |
| Gemini.CallGeminiApi | background.js:326-331 | for an ok response whose body parses, the call succeeds exactly when `candidates[0].content.parts[0].text` is a non-empty string, returns that text, and otherwise fails with the no-answer message |
| Gemini.StatusMessageNamesStatus | background.js:305-324 | `StatusMessage`: the error message names its status, so no two statuses share one; any status other than 400, 403 and 429 ends with the response body |
| Gemini.NotOkFails | background.js:305-324 | a response that is not ok always fails, with the message for its status |
| Job.SummaryStore.Save | background.js:53-61 | one write of `summaryData`, recorded after the earlier writes |
| Job.SummaryStore.SaveSummaryError | background.js:68-72 | writes an error record with the URL and the message |
| Job.SummaryStore.HandleSummarize | background.js:31-66 | writes `loading{url}` first, then exactly one final record, which is `Outcome` |
| Job.OutcomeIsFinal | background.js:40-65 | `Outcome`: the final record is `done` or `error`, never `loading`, and it names the job's URL |
| Job.MissingKeyIgnoresEnv | background.js:41-47 | with a missing or empty key the error is written, whatever the network would do |
| Job.DoneCarriesContent | background.js:50-61 | a `done` record has a non-empty summary, and the title and type of the fetched content |
| Job.DoneKindFollowsRoute | background.js:50-61 | a `done` record is of type youtube exactly when the URL was routed to YouTube |
| Viewer.LeadingFenceLen | summary.js:64 | the opening fence needs `` ``` `` then `htm` in any case, and swallows all the whitespace after it |
| Viewer.TrailingFenceFrom | summary.js:65 | the closing fence is cut at the leftmost position where `` ``` `` plus only whitespace, optionally after a newline, reaches the end |
| Viewer.HandlerHead | summary.js:70-71 | a head is found exactly when the text starts with a whitespace, `on` in any case, word characters, spaces, `=` and spaces, and the value then begins right after those last spaces |
| Viewer.QuotedHandlerLen | summary.js:70 | a quoted handler match is a head, a quote right after it, and everything up to and including the first quote after that; there is a match whenever a head is followed by a quote and a later quote |
| Viewer.UnquotedHandlerLen | summary.js:71 | an unquoted handler match is non-empty exactly where a handler head starts; after the head it takes every character up to the next whitespace or `>` |
| Viewer.SanitizeDeletesOnly | summary.js:59-74 | `sanitizeHtml`: the sanitized HTML is a subsequence of the summary |
| Viewer.NoHandlerWithoutEquals | summary.js:70-71 | neither handler pattern matches in text without `=` |
| Viewer.PlainSummaryUnchanged | summary.js:59-74 | HTML that neither fence pattern matches, with no `<script` in any case and no `on…=` head anywhere, is shown exactly as it came |
| Viewer.CleanMarkupKept | summary.js:68-71 | the script and handler removals leave text with no `<script` and no `on…=` head unchanged |
| Viewer.PlainTextHasNoMarkup | summary.js:69-71 | text without `<` and `=` has no `<script` and no `on…=` head |
| Viewer.PlainAnswerShownAsIs | summary.js:59-74 | a plain answer with no backtick, `<` or `=` is shown as it came, bare or wrapped in a `` ```html `` fence |
| Viewer.FencedSummaryUnwrapped | summary.js:59-71 | the fence stripping turns `` ```html ``, a newline, an answer with no backtick that starts with no whitespace, a newline and `` ``` `` back into the answer; the page then shows the answer with its scripts and handlers removed, as if it had come without the fence |
| Viewer.TrailingFenceOfWrapped | summary.js:65 | the closing fence of a wrapped answer is found right after the answer |
| Viewer.TrailingFenceFirst | summary.js:65 | the fence search returns the leftmost match |
| Viewer.NoTrailingFenceWithoutBacktick | summary.js:65 | text without a backtick has no closing fence |
| Viewer.BareFenceKept | summary.js:64 | a fence without `htm` right after it is not removed |
| Viewer.Poll | summary.js:12-32 | polling settles on the first record that is not `loading`, and every earlier read was `loading`; when no read settles, every read was `loading` |
| Viewer.RescheduleIffLoading | summary.js:12-30 | `PollStep`: the page polls again exactly when the record is `loading` |
| Viewer.BadgeNamesSourceType | summary.js:41-42 | the badge says "YouTube" exactly for YouTube content, and "Web" otherwise; its class is `badge badge-<type>` |
| Viewer.FinishedJobSettles | summary.js:13-30 | after `handleSummarize` the page shows an error or the result, and the badge follows the URL's routing |

## Left out

- Browser plumbing is left out: context menus, `chrome.tabs.create`, the options page (`options.js`) and the DOM updates of `showResult` and `showError`. What the page shows is modelled as a `ViewAction` value.
- `chrome.storage` is left out. It is the `SummaryStore.summaryData` field, and the stored API key is a parameter.
- The network, `JSON.parse` and the WHATWG URL parser are library code. They are the fields of `Content.Env`:
  - a fetch result is a status and a body, or a rejection message;
  - a parse is a value or an error message.
- Concurrency is left out: overlapping jobs, and the interleaving of the `setTimeout` chain with the job. `Viewer.Poll` takes the sequence of records that successive checks read.
- Failures of `chrome.storage` itself are left out, and so are failures of the tab creation, which happen outside the `try` block.
- Lengths are counted in characters. JavaScript's `slice` and `length` count UTF-16 code units, so `MAX_TEXT_LENGTH` is a bound on code points here.
- JSON numbers are integers, because only their truthiness is used. The generation settings (`temperature: 0.3`, `maxOutputTokens: 16384`) and the request's JSON serialization are left out, because the POST receives the prompt text directly.
- Json.NonEmptyString: a truthy value that is not a string is treated as absent. The source would use such a value as a title, a detail or a summary.
- Content.CaptionUrl: a `baseUrl` that is not a string becomes the text `"undefined"` for the fetch.
- Content.FetchYouTubeCaptions: the failure kinds stand for thrown errors whose messages are only logged, so their texts are not modelled.
- Console logging is left out.
- Idempotence and script-freedom of `sanitizeHtml` are not claimed. A deletion can splice the surrounding text into a new `<script>` block or `on…=` attribute, so the code guarantees neither.
- Behaviours of the code worth knowing, which the model follows:
  - caption segments decode five entities (`&amp; &lt; &gt; &quot; &#39;`) and leave `&nbsp;` alone;
  - the HTML is sanitized by the summary page when it is shown, not before it is stored;
  - the player response is the lazy `\{.+?\}` capture, so it can end at the first `};` inside a JSON string (`PlayerResponse.LazyObjectEnd` states that the first `}` followed by `\s*;` ends it).
