/** The job `handleSummarize` runs for one URL, and the `summaryData` record it keeps in local
    storage: first a loading state, then either the summary or an error message. */
module Job {
  import opened Wrappers
  import opened Content
  import opened Gemini

  /** The `summaryData` record, by its `status` field. */
  datatype JobState =
    | Loading(url: string)
    | Done(url: string, title: string, summary: string, sourceType: SourceType)
    | Failed(url: string, message: string)

  const MissingKeyMessage: string :=
    "APIキーが設定されていません。設定ページからGemini APIキーを入力してください。"

  /** `getApiKey()`: the stored `geminiApiKey`, or null when it is missing or empty. */
  function ApiKey(stored: Option<string>): Option<string> {
    match stored
    case Some(k) => if k != "" then Some(k) else None
    case None => None
  }

  /** The record the job ends with: an error without a key, else the first failure of fetching or
      summarizing, else the summary with the content's title and type. */
  function Outcome(url: string, stored: Option<string>, env: Env): JobState {
    match ApiKey(stored)
    case None => Failed(url, MissingKeyMessage)
    case Some(key) =>
      match FetchContent(url, env)
      case Err(m) => Failed(url, m)
      case Ok(c) =>
        match CallGeminiApi(key, c, env)
        case Err(m) => Failed(url, m)
        case Ok(summary) => Done(url, c.title, summary, c.kind)
  }

  /** Local storage as far as the extension uses it: the one `summaryData` entry. */
  class SummaryStore {
    var summaryData: Option<JobState>
    /** Every record written, in order. */
    ghost var writes: seq<JobState>

    constructor()
      ensures summaryData == None && writes == []
    {
      summaryData := None;
      writes := [];
    }

    /** `chrome.storage.local.set({ summaryData: state })`. */
    method Save(state: JobState)
      modifies this
      ensures summaryData == Some(state) && writes == old(writes) + [state]
    {
      summaryData := Some(state);
      writes := writes + [state];
    }

    /** `saveSummaryError(url, message)`. */
    method SaveSummaryError(url: string, message: string)
      modifies this
      ensures summaryData == Some(Failed(url, message)) && writes == old(writes) + [Failed(url, message)]
    {
      Save(Failed(url, message));
    }

    /** `handleSummarize(url)`: the loading state is written first, then exactly one final record. */
    method HandleSummarize(url: string, stored: Option<string>, env: Env)
      modifies this
      ensures writes == old(writes) + [Loading(url), Outcome(url, stored, env)]
      ensures summaryData == Some(Outcome(url, stored, env))
    {
      Save(Loading(url));
      var apiKey := ApiKey(stored);
      if apiKey.None? {
        SaveSummaryError(url, MissingKeyMessage);
        return;
      }
      var content := FetchContent(url, env);
      if content.Err? {
        SaveSummaryError(url, content.error);
        return;
      }
      var summary := CallGeminiApi(apiKey.value, content.value, env);
      if summary.Err? {
        SaveSummaryError(url, summary.error);
        return;
      }
      Save(Done(url, content.value.title, summary.value, content.value.kind));
    }
  }

  /** The job always ends in a final record about the URL it was given. */
  lemma OutcomeIsFinal(url: string, stored: Option<string>, env: Env)
    ensures !Outcome(url, stored, env).Loading? && Outcome(url, stored, env).url == url
  {
  }

  /** Without an API key nothing is fetched: the outcome does not depend on the outside world. */
  lemma MissingKeyIgnoresEnv(url: string, stored: Option<string>, env1: Env, env2: Env)
    requires stored.None? || stored == Some("")
    ensures Outcome(url, stored, env1) == Outcome(url, stored, env2) == Failed(url, MissingKeyMessage)
  {
  }

  /** A finished summary is never empty, and its title and type are those of the fetched content. */
  lemma DoneCarriesContent(url: string, stored: Option<string>, env: Env)
    requires Outcome(url, stored, env).Done?
    ensures var d := Outcome(url, stored, env);
      d.summary != "" && FetchContent(url, env).Ok? &&
      d.title == FetchContent(url, env).value.title && d.sourceType == FetchContent(url, env).value.kind
  {
  }

  /** The kind of a finished summary is YouTube exactly when the URL was routed to YouTube. */
  lemma DoneKindFollowsRoute(url: string, stored: Option<string>, env: Env)
    requires Outcome(url, stored, env).Done?
    ensures Outcome(url, stored, env).sourceType == YouTube <==> RoutesToYouTube(url, env)
  {
    ContentKindFollowsRoute(url, env);
  }
}
