/** The summarizer call: `buildPrompt`, which wraps the content in a fixed Japanese instruction
    text, and `callGeminiApi`, which posts it and maps each failure to the message the user sees. */
module Gemini {
  import opened Wrappers
  import opened JsText
  import opened Json
  import opened Content

  const GeminiApiUrl: string :=
    "https://generativelanguage.googleapis.com/v1beta/models/gemini-3-flash-preview:generateContent"

  /** The request URL, with the API key appended as written (no escaping). */
  function RequestUrl(apiKey: string): string {
    GeminiApiUrl + "?key=" + apiKey
  }

  /** `typeLabel`: how the prompt names the kind of source. */
  function TypeLabel(kind: SourceType): string {
    if kind == YouTube then "YouTube動画" else "ウェブ記事"
  }

  const PromptHead: string := "以下の"

  /** The instructions between the label and the content text: the output layout, the diagram
      templates and their class names, and the rules for using them, ending in a `---` line. */
  const PromptBody: string := @"の内容を日本語で要約してください。
出力は必ずHTMLで返してください。マークダウンではなくHTMLタグを使ってください。
要所要所に図解を挿入して、内容を直感的にわかりやすくしてください。

## 出力構成

1. <h2>サマリー</h2> — 全体の概要を3〜5文で。
2. <h2>主要ポイント</h2> — 重要ポイントを3〜5つ。ここに1つ図解を入れる。
3. <h2>詳細</h2> — セクションごとに詳しく。各セクション間に適切な図解を入れる。
   - 具体的な情報、数値、事例を含める
   - 議論や主張の根拠も記載する
   - 重要な引用や発言があれば含める

## 図解のHTMLテンプレート（必ずこのclass名を使うこと）

### フローチャート（プロセスや流れの説明に使う）
<div class=""diagram-flow"">
  <div class=""flow-step"">ステップ1<div class=""flow-sub"">補足</div></div>
  <div class=""flow-arrow"">→</div>
  <div class=""flow-step highlight"">ステップ2<div class=""flow-sub"">補足</div></div>
  <div class=""flow-arrow"">→</div>
  <div class=""flow-step"">ステップ3</div>
</div>

### 比較カード（複数の要素を比較する時に使う）
<div class=""diagram-compare"">
  <div class=""compare-card"">
    <div class=""compare-title"">項目A</div>
    <div class=""compare-body""><ul><li>特徴1</li><li>特徴2</li></ul></div>
  </div>
  <div class=""compare-card"">
    <div class=""compare-title"">項目B</div>
    <div class=""compare-body""><ul><li>特徴1</li><li>特徴2</li></ul></div>
  </div>
</div>

### ステップ図（手順や段階の説明に使う）
<div class=""diagram-steps"">
  <div class=""step""><div class=""step-number"">1</div><div class=""step-line""></div><div class=""step-content""><div class=""step-title"">タイトル</div><div class=""step-desc"">説明</div></div></div>
  <div class=""step""><div class=""step-number"">2</div><div class=""step-line""></div><div class=""step-content""><div class=""step-title"">タイトル</div><div class=""step-desc"">説明</div></div></div>
</div>

### 数値・統計カード（重要な数値やメトリクスに使う）
<div class=""diagram-stats"">
  <div class=""stat-card""><div class=""stat-value"">数値</div><div class=""stat-label"">ラベル</div></div>
  <div class=""stat-card""><div class=""stat-value"">数値</div><div class=""stat-label"">ラベル</div></div>
</div>

### 情報ボックス（重要な注意点やポイントに使う。色: info-blue, info-green, info-yellow, info-red）
<div class=""diagram-info info-blue""><div class=""info-title"">ポイント</div>説明テキスト</div>

### テーブル（データの比較・整理に使う）
<table class=""diagram-table""><thead><tr><th>列1</th><th>列2</th></tr></thead><tbody><tr><td>値1</td><td>値2</td></tr></tbody></table>

### タイムライン（時系列の説明に使う）
<div class=""diagram-timeline"">
  <div class=""tl-item""><div class=""tl-time"">時期</div><div class=""tl-title"">イベント</div><div class=""tl-desc"">説明</div></div>
</div>

### メリット・デメリット
<div class=""diagram-proscons"">
  <div class=""pros""><div class=""pc-title"">メリット</div><ul><li>項目</li></ul></div>
  <div class=""cons""><div class=""pc-title"">デメリット</div><ul><li>項目</li></ul></div>
</div>

### パーセンテージバー（割合の視覚化に使う）
<div class=""diagram-bars"">
  <div class=""bar-item""><div class=""bar-label""><span>項目</span><span>75%</span></div><div class=""bar-track""><div class=""bar-fill"" style=""width:75%""></div></div></div>
</div>

### 関係図（中心と関連要素の関係に使う）
<div class=""diagram-hub"">
  <div class=""hub-node"">要素1</div>
  <div class=""hub-node"">要素2</div>
  <div class=""hub-center"">中心</div>
  <div class=""hub-node"">要素3</div>
  <div class=""hub-node"">要素4</div>
</div>

## 図解の使い方ルール
- 内容に応じて最適な図解タイプを選ぶ（最低3つ、できれば5つ以上の図解を使う）
- テキストだけの説明が続かないよう、要所に図解を挟む
- 上記のclass名を正確に使うこと（CSSが適用される）
- <script>タグは絶対に使わないこと
- 図解以外の部分は通常のHTMLタグ（h2, h3, p, ul, li, strong, blockquote等）を使う

---

"

  /** `buildPrompt(content)`. */
  function BuildPrompt(c: Content): string {
    Framed(PromptHead, TypeLabel(c.kind), PromptBody, c.text)
  }

  /** A text framed by a head, a label and a body, in that order. */
  function Framed(head: string, kindLabel: string, body: string, text: string): string {
    head + kindLabel + body + text
  }

  /** Reading a prompt back: the kind of source its label names and the content text after the
      instructions, or `None` for text that is not a prompt. */
  function ParsePrompt(p: string): Option<(SourceType, string)> {
    Unframe(p, PromptHead, PromptBody)
  }

  /** The kind whose label, followed by `body`, comes after `head`, and the text after that. */
  function Unframe(p: string, head: string, body: string): Option<(SourceType, string)> {
    if !StartsWith(p, head) then None
    else
      var rest := p[|head|..];
      var yt := TypeLabel(YouTube) + body;
      var web := TypeLabel(Web) + body;
      if StartsWith(rest, yt) then Some((YouTube, rest[|yt|..]))
      else if StartsWith(rest, web) then Some((Web, rest[|web|..]))
      else None
  }

  lemma UnframeFramed(head: string, kind: SourceType, body: string, text: string)
    ensures Unframe(Framed(head, TypeLabel(kind), body, text), head, body) == Some((kind, text))
  {
    var p := Framed(head, TypeLabel(kind), body, text);
    var kindLabel := TypeLabel(kind);
    assert p == head + (kindLabel + body + text);
    assert p[..|head|] == head;
    var rest := p[|head|..];
    assert rest == (kindLabel + body) + text;
    assert rest[..|kindLabel + body|] == kindLabel + body;
    if kind == Web {
      var yt := TypeLabel(YouTube) + body;
      assert yt[0] == 'Y' && rest[0] == 'ウ';
    }
  }

  /** The prompt carries the kind of source and the whole content text, recoverable as they were. */
  lemma PromptRoundTrip(c: Content)
    ensures ParsePrompt(BuildPrompt(c)) == Some((c.kind, c.text))
  {
    UnframeFramed(PromptHead, c.kind, PromptBody, c.text);
  }

  /** Different content gives different prompts. */
  lemma PromptInjective(c1: Content, c2: Content)
    requires BuildPrompt(c1) == BuildPrompt(c2)
    ensures c1.kind == c2.kind && c1.text == c2.text
  {
    PromptRoundTrip(c1);
    PromptRoundTrip(c2);
  }

  const BadRequestMessage: string := "APIリクエストが不正です。APIキーを確認してください。"
  const ForbiddenMessage: string := "APIキーが無効か、権限がありません。"
  const RateLimitPrefix: string := "APIの利用制限に達しました。\n詳細: "
  const OtherStatusPrefix: string := "Gemini APIエラー ("
  const NoAnswerMessage: string := "Gemini APIから有効な応答が得られませんでした"

  /** The detail of a 429 answer: the body's `error.message` when it parses and is a non-empty
      string, else the whole body. */
  function RateLimitDetail(body: string, parse: JsonParser): string {
    match parse(body)
    case Ok(err) => StringOr(Get(Get(Some(err), "error"), "message"), body)
    case Err(_) => body
  }

  /** The message thrown for a response that is not ok. */
  function StatusMessage(status: nat, body: string, parse: JsonParser): string {
    if status == 400 then BadRequestMessage
    else if status == 403 then ForbiddenMessage
    else if status == 429 then RateLimitPrefix + RateLimitDetail(body, parse)
    else OtherStatusPrefix + NatToString(status) + "): " + body
  }

  /** `data?.candidates?.[0]?.content?.parts?.[0]?.text`. */
  function AnswerText(data: Json): Option<Json> {
    Get(First(Get(Get(First(Get(Some(data), "candidates")), "content"), "parts")), "text")
  }

  /** `callGeminiApi`: the summary text, or the message of the error it throws. */
  function CallGeminiApi(apiKey: string, c: Content, env: Env): (r: Result<string, string>)
    ensures r.Ok? ==> r.value != ""
    ensures var resp := env.post(RequestUrl(apiKey), BuildPrompt(c));
      resp.Ok? && IsOk(resp.value) && env.parseJson(resp.value.body).Ok? ==>
        var data := env.parseJson(resp.value.body).value;
        && (r.Ok? <==> NonEmptyString(AnswerText(data)).Some?)
        && (r.Ok? ==> AnswerText(data) == Some(JStr(r.value)))
        && (r.Err? ==> r.error == NoAnswerMessage)
  {
    match env.post(RequestUrl(apiKey), BuildPrompt(c))
    case Err(m) => Err(m)
    case Ok(resp) =>
      if !IsOk(resp) then Err(StatusMessage(resp.status, resp.body, env.parseJson))
      else
        match env.parseJson(resp.body)
        case Err(m) => Err(m)
        case Ok(data) =>
          match NonEmptyString(AnswerText(data))
          case Some(t) => Ok(t)
          case None => Err(NoAnswerMessage)
  }

  /** The status a failure message reports: 400, 403 and 429 by their fixed texts, any other
      status by the number written after `Gemini APIエラー (`. */
  function ReportedStatus(msg: string): Option<nat> {
    if msg == BadRequestMessage then Some(400)
    else if msg == ForbiddenMessage then Some(403)
    else if StartsWith(msg, RateLimitPrefix) then Some(429)
    else if StartsWith(msg, OtherStatusPrefix) then
      var i := |OtherStatusPrefix|;
      var j := SpanWhile(msg, i, IsDigit);
      if i < j then Some(DigitsValue(msg[i..j])) else None
    else None
  }

  /** Every status message names its status, so no two statuses share a message; a status other
      than 400, 403 and 429 also passes the response body on, at the end of the message. */
  lemma {:induction false} StatusMessageNamesStatus(status: nat, body: string, parse: JsonParser)
    ensures ReportedStatus(StatusMessage(status, body, parse)) == Some(status)
    ensures status != 400 && status != 403 && status != 429 ==>
      var msg := StatusMessage(status, body, parse);
      |body| <= |msg| && msg[|msg| - |body|..] == body
  {
    var msg := StatusMessage(status, body, parse);
    if status == 403 {
      assert |BadRequestMessage| != |ForbiddenMessage|;
    } else if status == 429 {
      assert msg[3] == 'の';
      assert BadRequestMessage[3] == 'リ' && ForbiddenMessage[3] == 'キ';
      assert msg[..|RateLimitPrefix|] == RateLimitPrefix;
    } else if status != 400 {
      OtherStatusReported(status, body);
    }
  }

  lemma OtherStatusReported(status: nat, body: string)
    ensures var msg := OtherStatusPrefix + NatToString(status) + "): " + body;
      ReportedStatus(msg) == Some(status) && |body| <= |msg| && msg[|msg| - |body|..] == body
  {
    var digits := NatToString(status);
    var msg := OtherStatusPrefix + digits + "): " + body;
    var i := |OtherStatusPrefix|;
    OtherStatusLayout(digits, body);
    DigitsSpan(msg, i, digits);
    NatToStringRoundTrip(status);
  }

  /** Where the parts of a message for another status sit, and that it starts like no other message. */
  lemma OtherStatusLayout(digits: string, body: string)
    ensures var msg := OtherStatusPrefix + digits + "): " + body;
      var i := |OtherStatusPrefix|;
      msg != BadRequestMessage && msg != ForbiddenMessage && !StartsWith(msg, RateLimitPrefix) &&
      StartsWith(msg, OtherStatusPrefix) && i + |digits| < |msg| &&
      msg[i..i + |digits|] == digits && msg[i + |digits|] == ')' && msg[|msg| - |body|..] == body
  {
    var tail := "): " + body;
    var msg := OtherStatusPrefix + digits + "): " + body;
    var i := |OtherStatusPrefix|;
    assert msg == OtherStatusPrefix + (digits + tail);
    assert msg[|msg| - |body|..] == body;
    assert msg[0] == 'G' && BadRequestMessage[0] == 'A' && ForbiddenMessage[0] == 'A' && RateLimitPrefix[0] == 'A';
    assert msg[..i] == OtherStatusPrefix;
    assert msg[i..i + |digits|] == digits;
    assert msg[i + |digits|] == tail[0];
  }

  /** The digits written at `i` are exactly the span of digits there, when a non-digit follows. */
  lemma DigitsSpan(msg: string, i: nat, digits: string)
    requires i + |digits| < |msg| && msg[i..i + |digits|] == digits && !IsDigit(msg[i + |digits|])
    requires forall k :: 0 <= k < |digits| ==> IsDigit(digits[k])
    ensures SpanWhile(msg, i, IsDigit) == i + |digits| && msg[i..i + |digits|] == digits
  {
    forall k | i <= k < i + |digits| ensures IsDigit(msg[k]) {
      assert msg[k] == msg[i..i + |digits|][k - i];
    }
  }

  /** A response that is not ok always fails, and with the message of its status. */
  lemma NotOkFails(apiKey: string, c: Content, env: Env)
    requires env.post(RequestUrl(apiKey), BuildPrompt(c)).Ok?
    requires !IsOk(env.post(RequestUrl(apiKey), BuildPrompt(c)).value)
    ensures var status := env.post(RequestUrl(apiKey), BuildPrompt(c)).value.status;
      var r := CallGeminiApi(apiKey, c, env);
      r.Err? && ReportedStatus(r.error) == Some(status)
  {
    var resp := env.post(RequestUrl(apiKey), BuildPrompt(c)).value;
    StatusMessageNamesStatus(resp.status, resp.body, env.parseJson);
  }
}
