/** The chat endpoint: the base prompt built from the property configuration,
    the retrieval context appended to it, the language instructions, the choice of
    language, and the request handler's outcomes up to the point where the reply
    starts streaming (the stream itself is `SseReframe`).

    The DeepSeek call is a parameter (a function from the request to the failure it
    ends in, None when the stream opens); the request body arrives already parsed,
    None standing for a body that is not a JSON object. */
module ChatRoute {
  import opened Wrappers
  import opened JsText
  import opened JsNumber
  import opened LanguageDetection
  import opened MinpakuConfig
  import opened Rag

  datatype Message = Message(role: string, content: string)

  /** The parsed request body: `messages` is None when absent or not an array, and
      `language` is "" when absent. */
  datatype ChatBody = ChatBody(messages: Option<seq<Message>>, language: string)

  datatype ChatRequest = ChatRequest(model: string, messages: seq<Message>, temperature: real, maxTokens: nat, stream: bool)

  /** Why the handler's main block threw: an HTTP client error (with the response
      status if there was a response, and the error code), or anything else. */
  datatype Failure = ClientFailure(status: Option<int>, code: string) | OtherFailure

  datatype ChatResponse =
    | JsonError(status: nat, error: string)
    | Streaming(request: ChatRequest)

  const MissingKeyMessage := "APIキーが設定されていません。管理者にお問い合わせください。"
  const InvalidMessagesMessage := "無効なメッセージ形式です。"
  const GenericFailureMessage := "チャットサービスに一時的な問題が発生しています。しばらくしてからもう一度お試しください。"
  const InvalidKeyMessage := "APIキーが無効です。管理者にお問い合わせください。"
  const RateLimitMessage := "リクエストが多すぎます。しばらく待ってからもう一度お試しください。"
  const UpstreamDownMessage := "DeepSeekサービスに問題が発生しています。しばらくしてからもう一度お試しください。"
  const TimeoutMessage := "リクエストがタイムアウトしました。もう一度お試しください。"

  const RetrievalThreshold: real := 0.1
  const RetrievalCount := 10

  /** MINPAKU_CONTEXT for a configuration. */
  function MinpakuContext(c: Config): string {
    "\nあなたは「ととのいヴィラ PAL」のカスタマーサポートAIアシスタントです。以下の情報を参考にして、ゲストの質問に親切で丁寧に回答してください。\n\n基本情報:\n- 施設名: "
      + c.propertyName
      + "\n- 住所: " + c.address
      + "\n- 施設タイプ: " + c.propertyType
      + "\n- チェックイン時間: " + c.checkinTime
      + "\n- チェックアウト時間: " + c.checkoutTime
      + "\n- Wi-Fiパスワード: " + c.wifiPassword
      + "\n- 緊急連絡先: " + c.emergencyContact
      + "\n\nアクセス情報:\n- ナビ設定: " + c.access.naviSetting
      + "\n- 経由地推奨: " + c.access.viaPoint
      + "\n- 注意事項: " + c.access.notes
      + "\n\nBBQ・お買い物情報:\n- " + c.bbqInfo.preparation
      + "\n- " + c.bbqInfo.shoppingArea
      + "\n\nおすすめショップ:\n1. スーパーあおき 函南店（車15分）- 地元食材が豊富\n2. 杉山鮮魚店（車10分）- 沼津港直送の新鮮魚介、鯵の干物が名物\n3. 良酒倉庫 宮内酒店（車10分）- 伊豆の地酒・クラフトビール\n\n回答の際の注意点:\n1. 常に丁寧で親切な日本語で回答してください\n2. BBQや自然を楽しむ滞在をサポートしてください\n3. 地元の新鮮な食材やお店の情報を積極的に案内してください\n4. アクセスの質問には経由地設定をおすすめしてください\n5. 不明な点は「確認いたします」と答え、緊急連絡先をお伝えください\n"
  }

  /** One numbered retrieval entry: number, category, title, the full content, and
      the relevance percentage as the formatter writes it. */
  function Entry(i: nat, r: SearchResult, percent: real -> string): string {
    EntryHead(i, r) + r.content + EntryTail(r, percent)
  }

  /** The text in front of a result's content inside its entry. */
  function EntryHead(i: nat, r: SearchResult): string {
    EntryNumber(i) + EntryLabel(r)
  }

  function EntryLabel(r: SearchResult): string {
    r.category + "】" + r.title + "\n   "
  }

  function EntryNumber(i: nat): string {
    NatToString(i + 1) + ". 【"
  }

  function EntryTail(r: SearchResult, percent: real -> string): string {
    "\n   (関連度: " + percent(r.similarity) + "%)"
  }

  function Entries(results: seq<SearchResult>, percent: real -> string): (es: seq<string>)
    ensures |es| == |results|
    ensures forall i :: 0 <= i < |results| ==> es[i] == Entry(i, results[i], percent)
  {
    seq(|results|, i requires 0 <= i < |results| => Entry(i, results[i], percent))
  }

  const RelatedHeader := "\n\n関連する情報:\n"
  const EntrySeparator := "\n\n"
  const RelatedFooter := "\n\n上記の関連情報を参考にして、より具体的で正確な回答を提供してください。"

  /** The context `generateRAGContext` returns for a search outcome: the base
      prompt alone when the search failed or found nothing, otherwise the base
      prompt followed by every entry. */
  function RagContext(base: string, search: Result<seq<SearchResult>>, percent: real -> string): (ctx: string)
    ensures search.Err? || search.value == [] ==> ctx == base
    ensures StartsWith(ctx, base)
  {
    if search.Err? || search.value == [] then base
    else base + RelatedHeader + Join(Entries(search.value, percent), EntrySeparator) + RelatedFooter
  }

  /** Where part `i` starts in `Join(parts, sep)`. */
  function JoinOffset(parts: seq<string>, sep: string, i: nat): nat
    requires i <= |parts|
    decreases i
  {
    if i == 0 then 0 else |parts[0]| + |sep| + JoinOffset(parts[1..], sep, i - 1)
  }

  lemma OccursAtShift(needle: string, s: string, k: nat, prefix: string, suffix: string)
    requires OccursAt(needle, s, k)
    ensures OccursAt(needle, prefix + s + suffix, |prefix| + k)
  {
    var t := prefix + s + suffix;
    assert t[|prefix| + k..|prefix| + k + |needle|] == s[k..k + |needle|];
  }

  /** Each part occurs in the join at its offset, and the separator follows every
      part but the last. */
  lemma {:induction false} JoinPlacesParts(parts: seq<string>, sep: string, i: nat)
    requires i < |parts|
    ensures OccursAt(parts[i], Join(parts, sep), JoinOffset(parts, sep, i))
    ensures i + 1 < |parts| ==> OccursAt(sep, Join(parts, sep), JoinOffset(parts, sep, i) + |parts[i]|)
    decreases i
  {
    if i == 0 {
      JoinPlacesFirst(parts, sep);
    } else {
      var rest := parts[1..];
      var k := JoinOffset(rest, sep, i - 1);
      JoinPlacesParts(rest, sep, i - 1);
      assert rest[i - 1] == parts[i];
      JoinCons(parts, sep);
      OccursAtShift(parts[i], Join(rest, sep), k, parts[0] + sep, []);
      if i + 1 < |parts| {
        OccursAtShift(sep, Join(rest, sep), k + |parts[i]|, parts[0] + sep, []);
      }
      assert parts[0] + sep + Join(rest, sep) + [] == Join(parts, sep);
    }
  }

  lemma JoinCons(parts: seq<string>, sep: string)
    requires |parts| > 1
    ensures Join(parts, sep) == parts[0] + sep + Join(parts[1..], sep)
  {
  }

  /** The first part opens the join, followed by the separator if more follow. */
  lemma JoinPlacesFirst(parts: seq<string>, sep: string)
    requires parts != []
    ensures OccursAt(parts[0], Join(parts, sep), 0)
    ensures |parts| > 1 ==> OccursAt(sep, Join(parts, sep), |parts[0]|)
  {
    var j := Join(parts, sep);
    if |parts| > 1 {
      JoinCons(parts, sep);
      assert j[..|parts[0]|] == parts[0];
      assert j[|parts[0]|..|parts[0]| + |sep|] == sep;
    } else {
      assert j[0..|parts[0]|] == parts[0];
    }
  }

  /** Later parts start after earlier ones end. */
  lemma {:induction false} JoinOffsetsIncrease(parts: seq<string>, sep: string, i: nat, j: nat)
    requires i < j < |parts|
    ensures JoinOffset(parts, sep, i) + |parts[i]| + |sep| <= JoinOffset(parts, sep, j)
    decreases i
  {
    if i > 0 {
      JoinOffsetsIncrease(parts[1..], sep, i - 1, j - 1);
    } else {
      JoinOffsetNonNegative(parts[1..], sep, j - 1);
    }
  }

  lemma JoinOffsetNonNegative(parts: seq<string>, sep: string, i: nat)
    requires i <= |parts|
    ensures JoinOffset(parts, sep, i) >= 0
  {
  }

  /** Where result `i`'s content starts in the context built from `results`. */
  function ContentPosition(base: string, results: seq<SearchResult>, percent: real -> string, i: nat): nat
    requires i < |results|
  {
    EntryPosition(base, results, percent, i) + |EntryHead(i, results[i])|
  }

  lemma OccursWithin(a: string, b: string, k: nat, s: string, m: nat)
    requires OccursAt(a, b, k) && OccursAt(b, s, m)
    ensures OccursAt(a, s, m + k)
  {
    forall t | 0 <= t < |a| ensures s[m + k + t] == a[t] {
      assert s[m..m + |b|][k + t] == b[k + t];
    }
  }

  lemma OccursAtPrefix(a: string, b: string)
    ensures OccursAt(a, a + b, 0)
  {
    assert (a + b)[..|a|] == a;
  }

  lemma OccursAtStart(s: string)
    ensures OccursAt(s, s, 0)
  {
    assert s[0..|s|] == s;
  }

  /** Where entry `i` starts in the context built from `results`. */
  function EntryPosition(base: string, results: seq<SearchResult>, percent: real -> string, i: nat): nat
    requires i < |results|
  {
    |base| + |RelatedHeader| + JoinOffset(Entries(results, percent), EntrySeparator, i)
  }

  /** Entry `i` occurs whole at its position, followed by a blank line unless it
      is the last. */
  lemma EntryOccurs(base: string, results: seq<SearchResult>, percent: real -> string, i: nat)
    requires i < |results|
    ensures OccursAt(Entry(i, results[i], percent), RagContext(base, Ok(results), percent), EntryPosition(base, results, percent, i))
    ensures i + 1 < |results| ==>
      OccursAt(EntrySeparator, RagContext(base, Ok(results), percent),
               EntryPosition(base, results, percent, i) + |Entry(i, results[i], percent)|)
  {
    var es := Entries(results, percent);
    var join := Join(es, EntrySeparator);
    var prefix := base + RelatedHeader;
    var k := JoinOffset(es, EntrySeparator, i);
    assert RagContext(base, Ok(results), percent) == prefix + join + RelatedFooter;
    assert EntryPosition(base, results, percent, i) == |prefix| + k;
    assert es[i] == Entry(i, results[i], percent);
    JoinPlacesParts(es, EntrySeparator, i);
    OccursAtShift(es[i], join, k, prefix, RelatedFooter);
    if i + 1 < |results| {
      OccursAtShift(EntrySeparator, join, k + |es[i]|, prefix, RelatedFooter);
    }
  }

  /** Result `i`'s content occurs untruncated inside its entry. */
  lemma ContentOccurs(base: string, results: seq<SearchResult>, percent: real -> string, i: nat)
    requires i < |results|
    ensures OccursAt(results[i].content, RagContext(base, Ok(results), percent), ContentPosition(base, results, percent, i))
  {
    EntryOccurs(base, results, percent, i);
    var r := results[i];
    OccursAtStart(r.content);
    OccursAtShift(r.content, r.content, 0, EntryHead(i, r), EntryTail(r, percent));
    OccursWithin(r.content, Entry(i, r, percent), |EntryHead(i, r)|,
                 RagContext(base, Ok(results), percent), EntryPosition(base, results, percent, i));
  }

  /** Entry `i` opens with its rank, "i+1. 【". */
  lemma EntryNumbered(base: string, results: seq<SearchResult>, percent: real -> string, i: nat)
    requires i < |results|
    ensures OccursAt(EntryNumber(i), RagContext(base, Ok(results), percent), EntryPosition(base, results, percent, i))
  {
    EntryOccurs(base, results, percent, i);
    var r := results[i];
    var head := EntryHead(i, r);
    OccursAtPrefix(EntryNumber(i), EntryLabel(r));
    OccursAtPrefix(head, r.content);
    OccursAtPrefix(head + r.content, EntryTail(r, percent));
    OccursWithin(head, head + r.content, 0, Entry(i, r, percent), 0);
    OccursWithin(EntryNumber(i), head, 0, Entry(i, r, percent), 0);
    OccursWithin(EntryNumber(i), Entry(i, r, percent), 0,
                 RagContext(base, Ok(results), percent), EntryPosition(base, results, percent, i));
  }

  /** With results, the context holds every result's entry, numbered by rank,
      with the full content, in search order, entries separated by a blank line. */
  lemma RagContextListsEveryResult(base: string, results: seq<SearchResult>, percent: real -> string, i: nat)
    requires i < |results|
    ensures var ctx := RagContext(base, Ok(results), percent);
      && OccursAt(Entry(i, results[i], percent), ctx, EntryPosition(base, results, percent, i))
      && OccursAt(EntryNumber(i), ctx, EntryPosition(base, results, percent, i))
      && OccursAt(results[i].content, ctx, ContentPosition(base, results, percent, i))
      && (i + 1 < |results| ==>
            OccursAt(EntrySeparator, ctx, EntryPosition(base, results, percent, i) + |Entry(i, results[i], percent)|))
    ensures forall j :: i < j < |results| ==>
      EntryPosition(base, results, percent, i) + |Entry(i, results[i], percent)| + |EntrySeparator|
        <= EntryPosition(base, results, percent, j)
  {
    EntryNumbered(base, results, percent, i);
    ContentOccurs(base, results, percent, i);
    EntryOccurs(base, results, percent, i);
    forall j | i < j < |results|
      ensures EntryPosition(base, results, percent, i) + |Entry(i, results[i], percent)| + |EntrySeparator|
              <= EntryPosition(base, results, percent, j)
    {
      JoinOffsetsIncrease(Entries(results, percent), EntrySeparator, i, j);
    }
  }

  /** `generateRAGContext(query)`: retrieval with threshold 0.1 and count 10; any
      failure of the search falls back to the base prompt. */
  function GenerateRagContext(base: string, store: DocumentStore, embed: EmbeddingService,
                              percent: real -> string, query: string): (ctx: string)
    reads store
    ensures var found := SearchSimilarDocuments(store, embed, query, RetrievalThreshold, RetrievalCount);
      && (found.Err? ==> ctx == base)
      && (found.Ok? ==> ctx == RagContext(base, found, percent))
    ensures StartsWith(ctx, base)
  {
    RagContext(base, SearchSimilarDocuments(store, embed, query, RetrievalThreshold, RetrievalCount), percent)
  }

  /** The property name line: the Japanese name unless the code is en, zh or ko. */
  function PropertyNameFor(language: string): (name: string)
    ensures language !in ["en", "zh", "ko"] ==> name == "ととのいヴィラ PAL"
  {
    if language == "ja" then "ととのいヴィラ PAL"
    else if language == "en" then "Totonoiii Villa PAL"
    else if language == "zh" then "整备别墅PAL"
    else if language == "ko" then "토토노이 빌라 PAL"
    else "ととのいヴィラ PAL"
  }

  /** The name line always speaks the language whose configuration gives the
      instructions: an unsupported code gets the Japanese configuration and the
      Japanese name alike. */
  lemma PropertyNameAgreesWithConfig(language: string)
    ensures PropertyNameFor(language) == PropertyNameFor(GetLanguageConfig(language).code)
  {
    ValidCodes(language);
  }

  const LanguageHeading := "\n\n重要な言語指示:\n"

  /** The language guidelines between the system prompt and the name line. */
  const GuidelineRules := "で回答してください\n- 自然で会話的なトーンを使用してください\n- 役立つ場合は文化的コンテキストを含めてください\n- 日本語以外の方には、関連する日本の習慣も説明してください\n- 通貨: 価格はJPY（¥）で表示し、必要に応じてUSD/EUR/CNY換算も提供\n- 日付: 適切な現地フォーマットを使用\n- 時間: 24時間制を使用し、関連する場合は日本標準時（JST）と記載\n\n施設名（"

  function Guidelines(name: string): string {
    "\n\n" + name + "での追加ガイドライン:\n- 必ず" + name + GuidelineRules + name + "）:\n"
  }

  lemma PrefixAndSuffix(a: string, b: string, c: string)
    ensures StartsWith(a + b + c, a) && EndsWith(a + b + c, c)
  {
    assert (a + b + c)[..|a|] == a;
    assert (a + b + c)[|a + b + c| - |c|..] == c;
  }

  /** `generateMultilingualContext(language, enhancedContext)`: the enhanced
      context, then the system prompt of the selected configuration, and last the
      property name line. */
  function MultilingualContext(language: string, enhanced: string): (ctx: string)
    ensures StartsWith(ctx, "\n" + enhanced + LanguageHeading + GetLanguageConfig(language).systemPrompt)
    ensures EndsWith(ctx, PropertyNameFor(language) + "\n")
  {
    var lc := GetLanguageConfig(language);
    var head := "\n" + enhanced + LanguageHeading + lc.systemPrompt;
    var tail := PropertyNameFor(language) + "\n";
    PrefixAndSuffix(head, Guidelines(lc.name), tail);
    head + Guidelines(lc.name) + tail
  }

  /** `userMessages[userMessages.length - 1]?.content || ''`: the content of the
      last message whose role is "user", or "" when there is none. */
  function LatestUserMessage(messages: seq<Message>): string
    decreases |messages|
  {
    if messages == [] then ""
    else if messages[|messages| - 1].role == "user" then messages[|messages| - 1].content
    else LatestUserMessage(messages[..|messages| - 1])
  }

  /** Message `i` is from the user and no later one is. */
  predicate IsLatestUser(messages: seq<Message>, i: int) {
    && 0 <= i < |messages| && messages[i].role == "user"
    && forall j :: i < j < |messages| ==> messages[j].role != "user"
  }

  /** The text read is "" when no message is from the user, and otherwise the
      content of the last message from the user. */
  lemma LatestUserMessageIsLast(messages: seq<Message>)
    ensures (forall i :: 0 <= i < |messages| ==> messages[i].role != "user") ==> LatestUserMessage(messages) == ""
    ensures (exists i :: 0 <= i < |messages| && messages[i].role == "user") ==>
      exists i :: IsLatestUser(messages, i) && LatestUserMessage(messages) == messages[i].content
  {
    var k := LatestUserIndex(messages);
    if k >= 0 {
      assert IsLatestUser(messages, k);
    }
  }

  /** The index of the latest message from the user, or -1 when there is none. */
  lemma {:induction false} LatestUserIndex(messages: seq<Message>) returns (k: int)
    ensures -1 <= k < |messages|
    ensures k == -1 ==> LatestUserMessage(messages) == "" && forall i :: 0 <= i < |messages| ==> messages[i].role != "user"
    ensures k >= 0 ==> IsLatestUser(messages, k) && LatestUserMessage(messages) == messages[k].content
    decreases |messages|
  {
    if messages == [] {
      k := -1;
    } else {
      var last := |messages| - 1;
      if messages[last].role == "user" {
        k := last;
      } else {
        var init := messages[..last];
        k := LatestUserIndex(init);
        assert forall i :: 0 <= i < last ==> init[i] == messages[i];
      }
    }
  }

  /** The language the reply is asked in: an explicit language wins, otherwise the
      detected language of the latest user message ("ja" with no messages). */
  function SelectLanguage(language: string, messages: seq<Message>): (code: string)
    ensures language != "" ==> code == language
    ensures language == "" ==> IsValidLanguageCode(code)
  {
    var chosen := if language != "" then language else "ja";
    if language == "" && |messages| > 0 then
      DetectedIsValid(LatestUserMessage(messages));
      DetectLanguage(LatestUserMessage(messages))
    else
      ValidCodes(chosen);
      chosen
  }

  /** The message count test is redundant: without an explicit language the
      choice is always the detected language of the latest user message, since
      the empty text is classified as Japanese. */
  lemma SelectLanguageDetects(messages: seq<Message>)
    ensures SelectLanguage("", messages) == DetectLanguage(LatestUserMessage(messages))
  {
    if messages == [] {
      assert IsBlank("");
    }
  }

  /** The message the catch block answers with, by cause. */
  function FailureMessage(f: Failure): (m: string)
    ensures f.OtherFailure? ==> m == GenericFailureMessage
    ensures f.ClientFailure? && f.status == Some(401) ==> m == InvalidKeyMessage
    ensures f.ClientFailure? && f.status == Some(429) ==> m == RateLimitMessage
    ensures f.ClientFailure? && f.status == Some(500) ==> m == UpstreamDownMessage
    ensures f.ClientFailure? && f.status !in {Some(401), Some(429), Some(500)} ==>
              m == (if f.code == "ECONNABORTED" then TimeoutMessage else GenericFailureMessage)
  {
    if f.OtherFailure? then GenericFailureMessage
    else if f.status == Some(401) then InvalidKeyMessage
    else if f.status == Some(429) then RateLimitMessage
    else if f.status == Some(500) then UpstreamDownMessage
    else if f.code == "ECONNABORTED" then TimeoutMessage
    else GenericFailureMessage
  }

  /** The request sent upstream: the system prompt first, then the conversation. */
  function UpstreamRequest(system: string, messages: seq<Message>): ChatRequest {
    ChatRequest("deepseek-chat", [Message("system", system)] + messages, 0.7, 2000, true)
  }

  /** MINPAKU_CONTEXT as computed once when the route module loads, from the
      configuration the process environment gives. */
  function BaseContext(env: map<string, string>): string {
    MinpakuContext(GetMinpakuConfig(env))
  }

  /** `POST /api/chat`. `apiKey` is DEEPSEEK_API_KEY ("" when unset); `base` is
      the module's MINPAKU_CONTEXT (`BaseContext` of the environment); `body` is
      None when `request.json()` throws, that is when the body is not valid JSON
      or is `null` (any other JSON value reads as a body without messages). */
  function ChatPost(apiKey: string, base: string, body: Option<ChatBody>,
                    store: DocumentStore, embed: EmbeddingService, percent: real -> string,
                    deepSeek: ChatRequest -> Option<Failure>): (r: ChatResponse)
    reads store
    ensures apiKey == "" ==> r == JsonError(500, MissingKeyMessage)
    ensures apiKey != "" && body.None? ==> r == JsonError(500, GenericFailureMessage)
    ensures apiKey != "" && body.Some? && body.value.messages.None? ==> r == JsonError(400, InvalidMessagesMessage)
    ensures r.JsonError? && r.status == 400 ==> apiKey != "" && body.Some? && body.value.messages.None?
    ensures r.JsonError? ==> r.status == 400 || r.status == 500
    ensures r.Streaming? ==>
      && apiKey != "" && body.Some? && body.value.messages.Some?
      && deepSeek(r.request).None?
      && |r.request.messages| >= 1
      && r.request.messages[1..] == body.value.messages.value
      && var messages := body.value.messages.value;
         r.request.messages[0] == Message("system",
           MultilingualContext(SelectLanguage(body.value.language, messages),
             GenerateRagContext(base, store, embed, percent, LatestUserMessage(messages))))
    ensures apiKey != "" && body.Some? && body.value.messages.Some? ==>
      var messages := body.value.messages.value;
      var request := UpstreamRequest(
        MultilingualContext(SelectLanguage(body.value.language, messages),
          GenerateRagContext(base, store, embed, percent, LatestUserMessage(messages))),
        messages);
      && (deepSeek(request).Some? ==> r == JsonError(500, FailureMessage(deepSeek(request).value)))
      && (deepSeek(request).None? ==> r == Streaming(request))
  {
    if apiKey == "" then JsonError(500, MissingKeyMessage)
    else if body.None? then JsonError(500, GenericFailureMessage)
    else if body.value.messages.None? then JsonError(400, InvalidMessagesMessage)
    else
      var messages := body.value.messages.value;
      var language := SelectLanguage(body.value.language, messages);
      var latest := LatestUserMessage(messages);
      var enhanced := GenerateRagContext(base, store, embed, percent, latest);
      var request := UpstreamRequest(MultilingualContext(language, enhanced), messages);
      match deepSeek(request)
      case Some(f) => JsonError(500, FailureMessage(f))
      case None => Streaming(request)
  }
}
