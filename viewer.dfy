/** The summary page: `pollForResult`, which reads `summaryData` until the job has left its loading
    state, `showResult` and `showError`, which pick what to display, and `sanitizeHtml`, which cleans
    the model's HTML before it is inserted into the page. */
module Viewer {
  import opened Wrappers
  import opened JsText
  import opened JsReplace
  import opened HtmlExtract
  import opened Content
  import opened Job

  /** The length of the match of `/^```html?\s*\n?/i`, which can only start at index 0; 0 when
      there is none. The `\s*` already takes every newline, so `\n?` adds nothing. */
  function LeadingFenceLen(s: string): (n: nat)
    ensures n <= |s|
    ensures n > 0 ==> StartsWith(s, "```") && StartsWithCI(s[3..], "htm") && 6 <= n && (n == |s| || !IsSpace(s[n]))
    ensures StartsWith(s, "```") && StartsWithCI(s[3..], "htm") ==> n >= 6
  {
    if StartsWith(s, "```") && StartsWithCI(s[3..], "htm") then
      var k := if 6 < |s| && Lower(s[6]) == 'l' then 7 else 6;
      SkipSpaces(s, k)
    else 0
  }

  /** `/\n?```\s*$/i` matches at `p`: an optional newline, three backticks, then only whitespace
      to the end of the text. */
  predicate TrailingFenceAt(s: string, p: nat) {
    p <= |s| &&
    ((p < |s| && s[p] == '\n' && MatchesAt(s, "```", false, p + 1) && AllSpace(s[p + 4..])) ||
     (MatchesAt(s, "```", false, p) && AllSpace(s[p + 3..])))
  }

  /** The leftmost position at or after `p` where the trailing fence matches. */
  function TrailingFenceFrom(s: string, p: nat): (r: Option<nat>)
    requires p <= |s|
    ensures r.Some? ==> p <= r.value <= |s| && TrailingFenceAt(s, r.value)
    ensures forall q :: p <= q <= |s| && (r.None? || q < r.value) ==> !TrailingFenceAt(s, q)
    decreases |s| - p
  {
    if TrailingFenceAt(s, p) then Some(p)
    else if p == |s| then None
    else TrailingFenceFrom(s, p + 1)
  }

  /** The two fence removals, each at most once: the opening one, then the closing one. */
  function StripFences(html: string): string {
    var s := html[LeadingFenceLen(html)..];
    match TrailingFenceFrom(s, 0)
    case Some(p) => s[..p]
    case None => s
  }

  predicate IsQuote(c: char) {
    c == '"' || c == '\''
  }

  /** `\son\w+\s*=\s*` at the start of `t`, in any letter case: a whitespace, `on`, word characters
      up to `w`, spaces up to the `=` at `i`, and spaces up to `v`, where the next character (if
      any) is not a space. */
  predicate HandlerHeadShape(t: string, w: nat, i: nat, v: nat) {
    && 4 <= w <= i < v <= |t| && IsSpace(t[0]) && Lower(t[1]) == 'o' && Lower(t[2]) == 'n'
    && (forall k :: 3 <= k < w ==> IsWordChar(t[k]))
    && AllSpace(t[w..i]) && t[i] == '='
    && AllSpace(t[i + 1..v]) && (v < |t| ==> !IsSpace(t[v]))
  }

  /** The greedy runs of the handler head stop exactly at the bounds of its shape. */
  lemma HandlerHeadScanned(t: string, w: nat, i: nat, v: nat)
    requires HandlerHeadShape(t, w, i, v)
    ensures IsWordChar(t[3]) && w == SpanWhile(t, 3, IsWordChar)
    ensures i == SkipSpaces(t, w) && v == SkipSpaces(t, i + 1)
  {
    SkipSpacesStopsAt(t, w, i);
    SkipSpacesStopsAt(t, i + 1, v);
    assert t[w] == '=' || IsSpace(t[w]) by {
      if w < i { assert t[w..i][0] == t[w]; }
    }
  }

  /** Where the attribute's value begins after a handler head at the start of `t`; the head is
      found exactly when `t` starts with one. */
  function HandlerHead(t: string): (r: Option<nat>)
    ensures r.Some? ==> 5 <= r.value <= |t| && '=' in t
    ensures r.Some? ==> exists w: nat, i: nat :: HandlerHeadShape(t, w, i, r.value)
    ensures forall w: nat, i: nat, v: nat :: HandlerHeadShape(t, w, i, v) ==> r == Some(v)
  {
    forall w: nat, i: nat, v: nat | HandlerHeadShape(t, w, i, v)
      ensures IsWordChar(t[3]) && w == SpanWhile(t, 3, IsWordChar) && i == SkipSpaces(t, w) && v == SkipSpaces(t, i + 1)
    {
      HandlerHeadScanned(t, w, i, v);
    }
    if 4 <= |t| && IsSpace(t[0]) && Lower(t[1]) == 'o' && Lower(t[2]) == 'n' && IsWordChar(t[3]) then
      var w := SpanWhile(t, 3, IsWordChar);
      var i := SkipSpaces(t, w);
      if i < |t| && t[i] == '=' then
        var v := SkipSpaces(t, i + 1);
        assert HandlerHeadShape(t, w, i, v);
        Some(v)
      else None
    else None
  }

  /** The length of a match of `/\son\w+\s*=\s*["'][^"']*["']/gi` at the start of `t`: a quoted
      event-handler attribute (the two quotes need not be the same). The value opens with a quote
      right after the head and closes at the first quote after that; there is a match whenever a
      second quote follows. */
  function QuotedHandlerLen(t: string): (n: nat)
    ensures n <= |t|
    ensures n > 0 ==> '=' in t && IsQuote(t[n - 1])
    ensures n > 0 ==> HandlerHead(t).Some? && var j := HandlerHead(t).value;
      j + 1 < n && IsQuote(t[j]) && forall k :: j < k < n - 1 ==> !IsQuote(t[k])
    ensures forall j, k :: HandlerHead(t) == Some(j) && j < k < |t| && IsQuote(t[j]) && IsQuote(t[k]) ==> n > 0
  {
    match HandlerHead(t)
    case None => 0
    case Some(j) =>
      if j < |t| && IsQuote(t[j]) then
        var k := SpanWhile(t, j + 1, c => !IsQuote(c));
        if k < |t| then k + 1 else 0
      else 0
  }

  /** The length of a match of `\son\w+\s*=\s*[^\s>]*` (flags `gi`) at the start of `t`: an unquoted
      event-handler attribute, whose value runs to the next whitespace or `>`. */
  function UnquotedHandlerLen(t: string): (n: nat)
    ensures n <= |t|
    ensures n > 0 ==> '=' in t
    ensures HandlerHead(t).Some? <==> n > 0
    ensures n > 0 ==> var j := HandlerHead(t).value;
      j <= n && (forall k :: j <= k < n ==> !IsSpace(t[k]) && t[k] != '>') && (n < |t| ==> IsSpace(t[n]) || t[n] == '>')
  {
    match HandlerHead(t)
    case None => 0
    case Some(j) => SpanWhile(t, j, c => !IsSpace(c) && c != '>')
  }

  function QuotedHandler(): string -> nat {
    t => QuotedHandlerLen(t)
  }

  function UnquotedHandler(): string -> nat {
    t => UnquotedHandlerLen(t)
  }

  /** The last three replacements of `sanitizeHtml`: every script block, then every quoted and every
      unquoted `on…=` attribute. */
  function RemoveScriptsAndHandlers(s: string): string {
    var noScript := RemoveBlocks(s, "script");
    var noQuoted := ReplaceMatches(noScript, QuotedHandler(), "");
    ReplaceMatches(noQuoted, UnquotedHandler(), "")
  }

  /** `sanitizeHtml`: "" for an empty summary; otherwise the fences removed, then the script blocks
      and the event-handler attributes. */
  function SanitizeHtml(html: string): string {
    if html == "" then "" else RemoveScriptsAndHandlers(StripFences(html))
  }

  /** Sanitizing only deletes: the result is the summary with some characters left out. */
  lemma SanitizeDeletesOnly(html: string)
    ensures IsSubsequence(SanitizeHtml(html), html)
  {
    if html == "" {
      SubsequenceReflexive("");
    } else {
      var n := LeadingFenceLen(html);
      var s := html[n..];
      SubsequenceReflexive(s);
      SubsequenceOfSuffix(s, html, n);
      var unfenced := StripFences(html);
      match TrailingFenceFrom(s, 0) {
        case Some(p) =>
          SubsequenceOfPrefix(s, p);
          SubsequenceTransitive(unfenced, s, html);
        case None =>
      }
      var noScript := RemoveBlocks(unfenced, "script");
      var noQuoted := ReplaceMatches(noScript, QuotedHandler(), "");
      var r := ReplaceMatches(noQuoted, UnquotedHandler(), "");
      DeletionIsSubsequence(unfenced, Block("script"));
      DeletionIsSubsequence(noScript, QuotedHandler());
      DeletionIsSubsequence(noQuoted, UnquotedHandler());
      SubsequenceTransitive(noQuoted, noScript, unfenced);
      SubsequenceTransitive(r, noQuoted, unfenced);
      SubsequenceTransitive(r, unfenced, html);
    }
  }

  /** No event-handler pattern matches in text without `=`. */
  lemma NoHandlerWithoutEquals(s: string)
    requires '=' !in s
    ensures NoMatch(s, QuotedHandler()) && NoMatch(s, UnquotedHandler())
  {
    forall i | 0 <= i < |s|
      ensures !MatchHere(s[i..], QuotedHandler()) && !MatchHere(s[i..], UnquotedHandler())
    {
      assert '=' !in s[i..] by {
        forall k | 0 <= k < |s| - i ensures s[i..][k] != '=' {
          assert s[i..][k] == s[i + k];
        }
      }
    }
  }

  /** No `<script` in any letter case starts anywhere in `s`. */
  predicate NoScriptOpening(s: string) {
    forall i :: 0 <= i <= |s| ==> !MatchesAt(s, "<script", true, i)
  }

  /** No `on…=` attribute head starts anywhere in `s`. */
  predicate NoHandlerHead(s: string) {
    forall i :: 0 <= i < |s| ==> HandlerHead(s[i..]).None?
  }

  /** A summary that no fence pattern matches, with no `<script` and no `on…=` head anywhere, is
      shown exactly as it came. */
  lemma PlainSummaryUnchanged(html: string)
    requires LeadingFenceLen(html) == 0 && TrailingFenceFrom(html, 0).None?
    requires NoScriptOpening(html) && NoHandlerHead(html)
    ensures SanitizeHtml(html) == html
  {
    if html != "" {
      assert html[0..] == html;
      assert StripFences(html) == html;
      CleanMarkupKept(html);
    }
  }

  /** The script and handler removals leave text with no `<script` and no handler head alone. */
  lemma CleanMarkupKept(s: string)
    requires NoScriptOpening(s) && NoHandlerHead(s)
    ensures RemoveScriptsAndHandlers(s) == s
  {
    assert "<" + "script" == "<script";
    RemoveBlocksWithoutOpening(s, "script");
    assert NoMatch(s, QuotedHandler()) && NoMatch(s, UnquotedHandler()) by {
      forall i | 0 <= i < |s|
        ensures !MatchHere(s[i..], QuotedHandler()) && !MatchHere(s[i..], UnquotedHandler())
      {
        assert HandlerHead(s[i..]).None?;
      }
    }
    ReplaceWithoutMatch(s, QuotedHandler(), "");
    ReplaceWithoutMatch(s, UnquotedHandler(), "");
  }

  /** Text with no `<` and no `=` has no script opening and no handler head. */
  lemma PlainTextHasNoMarkup(s: string)
    requires '<' !in s && '=' !in s
    ensures NoScriptOpening(s) && NoHandlerHead(s)
  {
    forall i | 0 <= i <= |s| ensures !MatchesAt(s, "<script", true, i) {
      if i < |s| {
        assert s[i..][0] == s[i] && s[i] != '<' && Lower(s[i]) != '<';
      }
    }
    forall i | 0 <= i < |s| ensures HandlerHead(s[i..]).None? {
      assert '=' !in s[i..] by {
        forall k | 0 <= k < |s| - i ensures s[i..][k] != '=' {
          assert s[i..][k] == s[i + k];
        }
      }
    }
  }

  lemma {:induction false} NoTrailingFenceWithoutBacktick(s: string, p: nat)
    requires p <= |s| && '`' !in s
    ensures TrailingFenceFrom(s, p) == None
    decreases |s| - p
  {
    if p < |s| {
      NoTrailingFenceWithoutBacktick(s, p + 1);
    }
  }

  /** An answer wrapped in a ```` ```html ```` fence loses exactly the fence: what is shown is the
      answer with its scripts and handlers removed, as if it had come without the fence. */
  lemma FencedSummaryUnwrapped(body: string)
    requires '`' !in body && (|body| > 0 ==> !IsSpace(body[0]))
    ensures StripFences("```html\n" + body + "\n```") == body
    ensures SanitizeHtml("```html\n" + body + "\n```") == RemoveScriptsAndHandlers(body)
  {
    var html := "```html\n" + body + "\n```";
    assert html[..3] == "```";
    assert html[3..][..3] == "htm";
    assert html[6] == 'l' && html[7] == '\n';
    if |body| == 0 {
      assert html == "```html\n\n```";
      assert SkipSpaces(html, 9) == 9;
      assert LeadingFenceLen(html) == 9;
      var s := html[9..];
      assert s == "```" && s[..3] == "```" && s[3..] == [];
      assert TrailingFenceAt(s, 0);
      assert StripFences(html) == s[..0];
    } else {
      assert html[8] == body[0];
      assert SkipSpaces(html, 7) == 8 by {
        assert SkipSpaces(html, 8) == 8;
      }
      assert LeadingFenceLen(html) == 8;
      var s := html[8..];
      assert s == body + "\n```";
      TrailingFenceOfWrapped(body);
      assert s[..|body|] == body;
    }
  }

  lemma TrailingFenceOfWrapped(body: string)
    requires '`' !in body
    ensures TrailingFenceFrom(body + "\n```", 0) == Some(|body|)
  {
    var s := body + "\n```";
    TrailingFenceAtWrapped(body);
    forall q | 0 <= q < |body| ensures !TrailingFenceAt(s, q) {
      NoTrailingFenceInBody(body, q);
    }
    TrailingFenceFirst(s, 0, |body|);
  }

  lemma TrailingFenceAtWrapped(body: string)
    ensures TrailingFenceAt(body + "\n```", |body|)
  {
    var s := body + "\n```";
    assert s[|body|] == '\n';
    assert s[|body| + 1..][..3] == "```";
    assert s[|body| + 4..] == [];
  }

  lemma NoTrailingFenceInBody(body: string, q: nat)
    requires '`' !in body && q < |body|
    ensures !TrailingFenceAt(body + "\n```", q)
  {
    var s := body + "\n```";
    assert s[q] == body[q];
    if q + 1 < |body| { assert s[q + 1] == body[q + 1]; } else { assert s[q + 1] == '\n'; }
    if MatchesAt(s, "```", false, q) { assert s[q..][0] == s[q]; }
    if MatchesAt(s, "```", false, q + 1) { assert s[q + 1..][0] == s[q + 1]; }
  }

  lemma {:induction false} TrailingFenceFirst(s: string, p: nat, e: nat)
    requires p <= e <= |s| && TrailingFenceAt(s, e)
    requires forall q :: p <= q < e ==> !TrailingFenceAt(s, q)
    ensures TrailingFenceFrom(s, p) == Some(e)
    decreases e - p
  {
    if p < e {
      TrailingFenceFirst(s, p + 1, e);
    }
  }

  /** A plain answer, with no backtick, `<` or `=`, is shown exactly as it came, bare or fenced. */
  lemma PlainAnswerShownAsIs(body: string)
    requires '`' !in body && '<' !in body && '=' !in body
    ensures SanitizeHtml(body) == body
    ensures |body| > 0 && !IsSpace(body[0]) ==> SanitizeHtml("```html\n" + body + "\n```") == body
  {
    PlainTextHasNoMarkup(body);
    if body != "" {
      assert LeadingFenceLen(body) == 0 by {
        assert body[0] != '`';
      }
      NoTrailingFenceWithoutBacktick(body, 0);
    }
    PlainSummaryUnchanged(body);
    CleanMarkupKept(body);
    if |body| > 0 && !IsSpace(body[0]) {
      FencedSummaryUnwrapped(body);
    }
  }

  /** `POLL_INTERVAL_MS`. */
  const PollIntervalMs: nat := 500

  /** What one `check()` of the summary page does with the record it reads. */
  datatype ViewAction =
    | Stop
    | Reschedule(delayMs: nat)
    | ShowError(message: string, link: string)
    | ShowResult(badge: string, badgeClass: string, link: string, title: string, summaryHtml: string)

  /** The `sourceType` value as stored. */
  function SourceTypeName(t: SourceType): string {
    if t == YouTube then "youtube" else "web"
  }

  /** `check()`: nothing stored stops polling; a loading record polls again after the interval; an
      error shows its message (linking `#` when the URL is empty); a finished record shows the badge,
      the title and the sanitized summary. */
  function PollStep(data: Option<JobState>): ViewAction {
    match data
    case None => Stop
    case Some(Loading(_)) => Reschedule(PollIntervalMs)
    case Some(Failed(url, message)) => ShowError(message, if url != "" then url else "#")
    case Some(Done(url, title, summary, t)) =>
      ShowResult(if t == YouTube then "YouTube" else "Web", "badge badge-" + SourceTypeName(t), url, title,
                 SanitizeHtml(summary))
  }

  /** `pollForResult` over the records successive checks read: the first check that does not
      reschedule, with its index, or `None` when every read still saw the loading state. */
  function Poll(observed: seq<Option<JobState>>): (r: Option<(ViewAction, nat)>)
    ensures r.Some? ==>
      && r.value.1 < |observed| && r.value.0 == PollStep(observed[r.value.1]) && !r.value.0.Reschedule?
      && (forall i :: 0 <= i < r.value.1 ==> PollStep(observed[i]).Reschedule?)
    ensures r.None? ==> forall i :: 0 <= i < |observed| ==> observed[i].Some? && observed[i].value.Loading?
  {
    if |observed| == 0 then None
    else if !PollStep(observed[0]).Reschedule? then Some((PollStep(observed[0]), 0))
    else
      match Poll(observed[1..])
      case None => None
      case Some((a, k)) => Some((a, k + 1))
  }

  /** Polling goes on exactly while the record is in its loading state. */
  lemma RescheduleIffLoading(data: Option<JobState>)
    ensures PollStep(data).Reschedule? <==> data.Some? && data.value.Loading?
  {
  }

  /** The badge says "YouTube" exactly for YouTube content, and its class names the stored type. */
  lemma BadgeNamesSourceType(d: JobState)
    requires d.Done?
    ensures var a := PollStep(Some(d));
      (a.badge == "YouTube" <==> d.sourceType == YouTube) && (a.badge == "YouTube" || a.badge == "Web") &&
      a.badgeClass == (if d.sourceType == YouTube then "badge badge-youtube" else "badge badge-web")
  {
  }

  /** A fence without a language, or with another one, is not an opening fence. */
  lemma BareFenceKept(s: string)
    requires StartsWith(s, "```") && !StartsWithCI(s[3..], "htm")
    ensures LeadingFenceLen(s) == 0
  {
  }

  /** Once `handleSummarize` has finished, the next check settles: an error, or the result with the
      badge naming the kind the URL was routed to. */
  lemma FinishedJobSettles(url: string, stored: Option<string>, env: Env)
    ensures var a := PollStep(Some(Outcome(url, stored, env)));
      (a.ShowError? || a.ShowResult?) &&
      (a.ShowResult? ==> (a.badge == "YouTube" <==> RoutesToYouTube(url, env)))
  {
    if Outcome(url, stored, env).Done? {
      DoneKindFollowsRoute(url, stored, env);
    }
  }
}
