/** The four languages the widget speaks, their configuration entries, and the
    classifier that picks one for a piece of user text from the Unicode blocks it
    uses. Each regular-expression character class of the classifier is a predicate
    on characters; every range involved lies in the Basic Multilingual Plane below
    the surrogates, so testing characters and testing UTF-16 code units agree. */
module LanguageDetection {
  import opened Wrappers
  import opened JsText

  datatype LanguageConfig = LanguageConfig(
    code: string,
    name: string,
    flag: string,
    systemPrompt: string,
    welcomeMessage: string,
    placeholderText: string,
    quickReplies: seq<string>)

  const Japanese := LanguageConfig(
    "ja", "日本語", "🇯🇵",
    "基本は300文字以内で十分な情報を、詳細要求時は1500文字以内で徹底的に回答してください。",
    "ととのいヴィラPALへようこそ！ご質問をお聞かせください。",
    "メッセージを入力してください...",
    ["チェックイン方法は？", "近くのお店を教えて", "Wi-Fiパスワードは？", "詳細を教えて"])

  const English := LanguageConfig(
    "en", "English", "🇺🇸",
    "Basic responses within 200 words with sufficient info, detailed responses within 1000 words when requested.",
    "Welcome to Totonoiii Villa PAL! How can I help you?",
    "Type your message...",
    ["How to check in?", "Nearby restaurants?", "Wi-Fi password?", "Tell me more"])

  const Chinese := LanguageConfig(
    "zh", "中文", "🇨🇳",
    "基础回答300字内提供充分信息，详细要求时1500字内全面回答。",
    "欢迎来到整备别墅PAL！有什么可以帮助您的吗？",
    "请输入您的消息...",
    ["如何办理入住？", "附近的餐厅？", "Wi-Fi密码？", "告诉我更多"])

  const Korean := LanguageConfig(
    "ko", "한국어", "🇰🇷",
    "기본 답변은 300자 내 충분한 정보로, 상세 요청시 1500자 내 포괄적으로 답변하세요.",
    "토토노이 빌라 PAL에 오신 것을 환영합니다! 무엇을 도와드릴까요？",
    "메시지를 입력하세요...",
    ["체크인 방법은?", "근처 음식점은?", "Wi-Fi 비밀번호는?", "자세히 알려줘"])

  /** SUPPORTED_LANGUAGES, Japanese first: it is also the fallback entry. */
  const SupportedLanguages: seq<LanguageConfig> := [Japanese, English, Chinese, Korean]

  predicate IsHangulSyllable(c: char) { '\U{AC00}' <= c <= '\U{D7AF}' }
  predicate IsAsciiLetter(c: char) { ('a' <= c <= 'z') || ('A' <= c <= 'Z') }
  predicate IsHiragana(c: char) { '\U{3040}' <= c <= '\U{309F}' }
  predicate IsKatakana(c: char) { '\U{30A0}' <= c <= '\U{30FF}' }
  predicate IsCjkIdeograph(c: char) { '\U{4E00}' <= c <= '\U{9FFF}' }

  /** The class `[请|您|吗|呢|的|了|在|是|有|我|你|他]`: inside brackets '|' is a
      member of the class, not an alternative. */
  predicate IsChineseMarker(c: char) {
    c in "请|您|吗|呢|的|了|在|是|有|我|你|他"
  }

  /** The class `[请|您|吗]` of the question pattern. */
  predicate IsChineseQuestionMarker(c: char) {
    c in "请|您|吗"
  }

  predicate HasHangul(t: string) { exists i :: 0 <= i < |t| && IsHangulSyllable(t[i]) }
  predicate HasAsciiLetter(t: string) { exists i :: 0 <= i < |t| && IsAsciiLetter(t[i]) }
  predicate HasHiragana(t: string) { exists i :: 0 <= i < |t| && IsHiragana(t[i]) }
  predicate HasKatakana(t: string) { exists i :: 0 <= i < |t| && IsKatakana(t[i]) }
  predicate HasKanji(t: string) { exists i :: 0 <= i < |t| && IsCjkIdeograph(t[i]) }
  predicate HasChineseMarker(t: string) { exists i :: 0 <= i < |t| && IsChineseMarker(t[i]) }

  /** `/[？].*[请|您|吗]/.test(t)`: a full-width question mark, later on the same
      line (`.` does not cross a line terminator) one of 请, 您, 吗 or '|'. */
  predicate HasChineseQuestion(t: string) {
    exists i, j :: 0 <= i < j < |t| && t[i] == '？' && IsChineseQuestionMarker(t[j])
                   && forall k :: i < k < j ==> !IsLineTerminator(t[k])
  }

  /** `(t.match(/[a-zA-Z]/g) || []).length`. */
  function CountAsciiLetters(t: string): (n: nat)
    ensures n <= |t|
    ensures n > 0 <==> HasAsciiLetter(t)
    decreases |t|
  {
    if t == [] then 0
    else
      var n := CountAsciiLetters(t[1..]);
      assert HasAsciiLetter(t) <==> IsAsciiLetter(t[0]) || HasAsciiLetter(t[1..]) by {
        if HasAsciiLetter(t) {
          var i :| 0 <= i < |t| && IsAsciiLetter(t[i]);
          if i > 0 { assert IsAsciiLetter(t[1..][i - 1]); }
        }
        if HasAsciiLetter(t[1..]) {
          var i :| 0 <= i < |t[1..]| && IsAsciiLetter(t[1..][i]);
          assert IsAsciiLetter(t[i + 1]);
        }
      }
      (if IsAsciiLetter(t[0]) then 1 else 0) + n
  }

  /** The alphabet ratio test `count / t.length > 0.5`, over integers. */
  predicate MostlyAscii(t: string) {
    2 * CountAsciiLetters(t) > Utf16Length(t)
  }

  /** The Chinese patterns, tried in order. */
  predicate MatchesChinesePattern(t: string) {
    HasChineseMarker(t) || HasChineseQuestion(t)
  }

  /** detectLanguage: each outcome is characterised by the tests that lead to it,
      in the order the function applies them. */
  function DetectLanguage(t: string): (code: string)
    ensures code == "ko" <==> HasHangul(t)
    ensures code == "en" <==> !HasHangul(t) && HasAsciiLetter(t) && !HasHiragana(t)
                              && !HasKatakana(t) && !HasKanji(t) && MostlyAscii(t)
    ensures code == "zh" <==> !HasHangul(t) && !HasHiragana(t) && !HasKatakana(t)
                              && HasKanji(t) && HasChineseMarker(t)
    ensures code == "ja" <==> !(code == "ko" || code == "en" || code == "zh")
    ensures IsBlank(t) ==> code == "ja"
  {
    if IsBlank(t) then
      "ja"
    else if HasHangul(t) then "ko"
    else if HasAsciiLetter(t) && !(HasHiragana(t) || HasKatakana(t) || HasKanji(t)) && MostlyAscii(t) then "en"
    else if HasHiragana(t) || HasKatakana(t) then "ja"
    else if HasKanji(t) then
      (ChineseQuestionHasMarker(t);
       if MatchesChinesePattern(t) then "zh" else "ja")
    else "ja"
  }

  /** The question pattern never decides anything: a text it matches already
      contains one of the single markers. */
  lemma ChineseQuestionHasMarker(t: string)
    ensures HasChineseQuestion(t) ==> HasChineseMarker(t)
  {
    if HasChineseQuestion(t) {
      var i, j :| 0 <= i < j < |t| && t[i] == '？' && IsChineseQuestionMarker(t[j])
                  && forall k :: i < k < j ==> !IsLineTerminator(t[k]);
      assert IsChineseMarker(t[j]);
    }
  }

  /** The first entry with the given code (`Array.prototype.find`). */
  function Find(configs: seq<LanguageConfig>, code: string): (r: Option<LanguageConfig>)
    ensures r.None? <==> forall i :: 0 <= i < |configs| ==> configs[i].code != code
    ensures r.Some? ==> exists i :: 0 <= i < |configs| && configs[i] == r.value
                                    && r.value.code == code
                                    && forall j :: 0 <= j < i ==> configs[j].code != code
    decreases |configs|
  {
    if configs == [] then None
    else if configs[0].code == code then Some(configs[0])
    else
      var r := Find(configs[1..], code);
      if r.Some? then
        ghost var i :| 0 <= i < |configs[1..]| && configs[1..][i] == r.value
                      && r.value.code == code
                      && forall j :: 0 <= j < i ==> configs[1..][j].code != code;
        assert configs[i + 1] == r.value;
        r
      else r
  }

  /** isValidLanguageCode. */
  predicate IsValidLanguageCode(code: string) {
    exists i :: 0 <= i < |SupportedLanguages| && SupportedLanguages[i].code == code
  }

  /** getLanguageConfig: the entry of a supported code, else the Japanese entry. */
  function GetLanguageConfig(code: string): (config: LanguageConfig)
    ensures IsValidLanguageCode(code) ==> config.code == code && config in SupportedLanguages
    ensures !IsValidLanguageCode(code) ==> config == Japanese
  {
    match Find(SupportedLanguages, code)
    case Some(c) => c
    case None => SupportedLanguages[0]
  }

  /** The supported codes are exactly ja, en, zh and ko. */
  lemma ValidCodes(code: string)
    ensures IsValidLanguageCode(code) <==> code in ["ja", "en", "zh", "ko"]
  {
    if code in ["ja", "en", "zh", "ko"] {
      var i :| 0 <= i < 4 && ["ja", "en", "zh", "ko"][i] == code;
      assert SupportedLanguages[i].code == code;
    }
  }

  /** The classifier only answers with supported codes, and the configuration it
      selects is the one for that language. */
  lemma DetectedIsValid(t: string)
    ensures IsValidLanguageCode(DetectLanguage(t))
    ensures GetLanguageConfig(DetectLanguage(t)).code == DetectLanguage(t)
  {
    ValidCodes(DetectLanguage(t));
  }
}
