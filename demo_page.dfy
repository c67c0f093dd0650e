/** The embed demo page: it turns the chosen widget settings into the URL of
    the embed page, putting a setting into the query string only when it differs
    from the embed page's default, and it renders the `<iframe>` snippet for that
    URL. Form controls and rendering are not part of this model. */
module DemoPage {
  import opened Wrappers
  import opened JsText
  import opened JsNumber
  import UriCodec
  import opened FormUrlencoded
  import ChatInterface

  const BaseUrl := "http://localhost:3003/embed"
  const DefaultTheme := "auto"
  const DefaultColor := "#e67e22"
  const DefaultWidth := 400
  const DefaultHeight := 600

  /** The settings the demo page edits. A size is whatever `parseInt` made of the
      input field, so it may be NaN. */
  datatype Settings = Settings(
    theme: string,
    primaryColor: string,
    width: Num,
    height: Num,
    showHeader: bool,
    welcomeMessage: string)

  const DefaultSettings := Settings(DefaultTheme, DefaultColor, Int(DefaultWidth), Int(DefaultHeight), true,
                                    ChatInterface.DefaultWelcome)

  /** The query parameter names, in the order the page sets them. */
  const Names: seq<string> := ["theme", "primaryColor", "width", "height", "showHeader", "welcomeMessage"]

  /** One conditional `params.set(name, value)` of the page. */
  datatype Slot = Slot(emit: bool, name: string, value: string)

  /** The `k`-th conditional `set`: emitted exactly when the setting differs from
      its default (`showHeader` only when false, as "false"); the greeting is
      passed through `encodeURIComponent` before the form encoding. */
  function SlotOf(s: Settings, k: nat): (slot: Slot)
    requires k < |Names|
    ensures slot.name == Names[k]
  {
    if k == 0 then Slot(s.theme != DefaultTheme, Names[0], s.theme)
    else if k == 1 then Slot(s.primaryColor != DefaultColor, Names[1], s.primaryColor)
    else if k == 2 then Slot(s.width != Int(DefaultWidth), Names[2], ToString(s.width))
    else if k == 3 then Slot(s.height != Int(DefaultHeight), Names[3], ToString(s.height))
    else if k == 4 then Slot(!s.showHeader, Names[4], "false")
    else Slot(s.welcomeMessage != ChatInterface.DefaultWelcome, Names[5],
              UriCodec.EncodeURIComponent(s.welcomeMessage))
  }

  /** The pairs after the first `k` conditional `set` calls, each on a name not
      yet present, so that it appends. */
  function Prefix(s: Settings, k: nat): seq<Param>
    requires k <= |Names|
    decreases k
  {
    if k == 0 then []
    else
      var slot := SlotOf(s, k - 1);
      if slot.emit then Prefix(s, k - 1) + [Param(slot.name, slot.value)] else Prefix(s, k - 1)
  }

  /** The pairs `generateEmbedUrl` puts into the query. */
  function ParamsOf(s: Settings): seq<Param> {
    Prefix(s, |Names|)
  }

  /** The position of a parameter name in `Names`, or `|Names|` for any other name. */
  function Rank(name: string): (k: nat)
    ensures k <= |Names|
    ensures k < |Names| ==> Names[k] == name
  {
    if name == Names[0] then 0
    else if name == Names[1] then 1
    else if name == Names[2] then 2
    else if name == Names[3] then 3
    else if name == Names[4] then 4
    else if name == Names[5] then 5
    else 6
  }

  lemma RankOfName(k: nat)
    requires k < |Names|
    ensures Rank(Names[k]) == k
  {
  }

  /** Names whose ranks are below `k` and strictly increase. */
  predicate RanksBelow(ps: seq<Param>, k: nat) {
    && (forall i :: 0 <= i < |ps| ==> Rank(ps[i].name) < k)
    && (forall i, j :: 0 <= i < j < |ps| ==> Rank(ps[i].name) < Rank(ps[j].name))
  }

  /** The pairs are in the order of `Names`, and after `k` calls only the first
      `k` names can occur. */
  lemma {:induction false} PrefixRanks(s: Settings, k: nat)
    requires k <= |Names|
    ensures RanksBelow(Prefix(s, k), k)
    decreases k
  {
    if k > 0 {
      PrefixRanks(s, k - 1);
      RankOfName(k - 1);
      var slot := SlotOf(s, k - 1);
      RanksBelowWiden(Prefix(s, k - 1), k - 1);
      if slot.emit {
        RanksBelowSnoc(Prefix(s, k - 1), Param(slot.name, slot.value), k - 1);
      }
    }
  }

  lemma RanksBelowWiden(ps: seq<Param>, k: nat)
    requires RanksBelow(ps, k)
    ensures RanksBelow(ps, k + 1)
  {
  }

  /** Appending a pair of rank `k` to pairs of ranks below `k`. */
  lemma RanksBelowSnoc(ps: seq<Param>, p: Param, k: nat)
    requires RanksBelow(ps, k) && Rank(p.name) == k
    ensures RanksBelow(ps + [p], k + 1)
  {
    var qs := ps + [p];
    assert forall i :: 0 <= i < |ps| ==> qs[i] == ps[i];
  }

  /** What `params.get(Names[k])` reads after the first `j` calls. */
  lemma {:induction false} GetPrefix(s: Settings, j: nat, k: nat)
    requires j <= |Names| && k < |Names|
    ensures Get(Prefix(s, j), Names[k]) ==
            (if k < j && SlotOf(s, k).emit then Some(SlotOf(s, k).value) else None)
    decreases j
  {
    if j > 0 {
      GetPrefix(s, j - 1, k);
      var slot := SlotOf(s, j - 1);
      if slot.emit {
        GetAppend(Prefix(s, j - 1), Param(slot.name, slot.value), Names[k]);
        if k != j - 1 {
          RankOfName(k);
          RankOfName(j - 1);
        }
      }
    }
  }

  /** Each setting is emitted iff it differs from its default, with its value as
      written: sizes through `toString` (NaN as "NaN"), `showHeader` only as
      "false", the greeting percent-encoded by `encodeURIComponent` (and then
      form-encoded again by the query serializer). */
  lemma ParamsEmitted(s: Settings)
    ensures Get(ParamsOf(s), "theme") == (if s.theme != DefaultTheme then Some(s.theme) else None)
    ensures Get(ParamsOf(s), "primaryColor") == (if s.primaryColor != DefaultColor then Some(s.primaryColor) else None)
    ensures Get(ParamsOf(s), "width") == (if s.width != Int(DefaultWidth) then Some(ToString(s.width)) else None)
    ensures Get(ParamsOf(s), "height") == (if s.height != Int(DefaultHeight) then Some(ToString(s.height)) else None)
    ensures Get(ParamsOf(s), "showHeader") == (if !s.showHeader then Some("false") else None)
    ensures Get(ParamsOf(s), "welcomeMessage") ==
            (if s.welcomeMessage != ChatInterface.DefaultWelcome
             then Some(UriCodec.EncodeURIComponent(s.welcomeMessage)) else None)
  {
    GetPrefix(s, |Names|, 0);
    GetPrefix(s, |Names|, 1);
    GetPrefix(s, |Names|, 2);
    GetPrefix(s, |Names|, 3);
    GetPrefix(s, |Names|, 4);
    GetPrefix(s, |Names|, 5);
  }

  /** The parameters come in the order theme, primaryColor, width, height,
      showHeader, welcomeMessage, each at most once. */
  lemma ParamsInOrder(s: Settings)
    ensures forall i :: 0 <= i < |ParamsOf(s)| ==> ParamsOf(s)[i].name in Names
    ensures forall i, j :: 0 <= i < j < |ParamsOf(s)| ==> Rank(ParamsOf(s)[i].name) < Rank(ParamsOf(s)[j].name)
  {
    PrefixRanks(s, |Names|);
    forall i | 0 <= i < |ParamsOf(s)| ensures ParamsOf(s)[i].name in Names {
      assert Names[Rank(ParamsOf(s)[i].name)] == ParamsOf(s)[i].name;
    }
  }

  /** No `set` call happens in the first `k` steps iff none of them emits. */
  lemma {:induction false} PrefixEmpty(s: Settings, k: nat)
    requires k <= |Names|
    ensures Prefix(s, k) == [] <==> forall j :: 0 <= j < k ==> !SlotOf(s, j).emit
    decreases k
  {
    if k > 0 {
      PrefixEmpty(s, k - 1);
    }
  }

  /** A custom greeting is the last pair, and the query ends with its
      `encodeURIComponent` form serialized once more by the form encoder. */
  lemma WelcomeEncodedTwice(s: Settings)
    requires s.welcomeMessage != ChatInterface.DefaultWelcome
    ensures var ps := ParamsOf(s);
      && ps != [] && ps[|ps| - 1] == Param("welcomeMessage", UriCodec.EncodeURIComponent(s.welcomeMessage))
      && EndsWith(Serialize(ps), SerializeComponent(UriCodec.EncodeURIComponent(s.welcomeMessage)))
  {
    var ps := ParamsOf(s);
    var p := Param(Names[5], UriCodec.EncodeURIComponent(s.welcomeMessage));
    assert ps == Prefix(s, 5) + [p];
    SerializeEndsWithLastValue(ps);
  }

  /** Only the default settings give no parameter at all. */
  lemma NoParamsIffDefault(s: Settings)
    ensures ParamsOf(s) == [] <==> s == DefaultSettings
  {
    PrefixEmpty(s, |Names|);
    if forall j :: 0 <= j < |Names| ==> !SlotOf(s, j).emit {
      assert !SlotOf(s, 0).emit && !SlotOf(s, 1).emit && !SlotOf(s, 2).emit;
      assert !SlotOf(s, 3).emit && !SlotOf(s, 4).emit && !SlotOf(s, 5).emit;
    }
  }

  /** `params.toString() ? base + "?" + query : base`. */
  function UrlOf(ps: seq<Param>): string {
    var query := Serialize(ps);
    if query != "" then BaseUrl + "?" + query else BaseUrl
  }

  /** The URL `generateEmbedUrl` produces for the settings. */
  function EmbedUrl(s: Settings): string {
    UrlOf(ParamsOf(s))
  }

  lemma BaseUrlPlain()
    ensures '"' !in BaseUrl && '?' !in BaseUrl
  {
  }

  lemma AppendStartsWith(a: string, b: string)
    ensures StartsWith(a + b, a)
  {
    assert (a + b)[..|a|] == a;
  }

  /** The URL for some pairs: the base URL alone iff there are none, otherwise
      the base URL, '?' and the query, which holds no further '?'; there is no
      '"' anywhere. */
  lemma UrlOfShape(ps: seq<Param>)
    ensures var url := UrlOf(ps);
      && StartsWith(url, BaseUrl)
      && (url == BaseUrl <==> ps == [])
      && (ps != [] ==> url == BaseUrl + "?" + Serialize(ps) && '?' !in Serialize(ps))
      && '"' !in url
  {
    var query := Serialize(ps);
    SerializeEmpty(ps);
    SerializeNoQuote(ps);
    BaseUrlPlain();
    if query != "" {
      AppendStartsWith(BaseUrl, "?" + query);
      assert BaseUrl + "?" + query == BaseUrl + ("?" + query);
    } else {
      AppendStartsWith(BaseUrl, "");
      assert BaseUrl + "" == BaseUrl;
    }
  }

  /** The URL is exactly the base URL (the page's initial URL) iff every setting
      is at its default; otherwise it is the base URL, the only '?' of the URL,
      and the query. */
  lemma EmbedUrlShape(s: Settings)
    ensures var url := EmbedUrl(s);
      && StartsWith(url, BaseUrl)
      && (url == BaseUrl <==> s == DefaultSettings)
      && (url != BaseUrl ==> url == BaseUrl + "?" + Serialize(ParamsOf(s)) && '?' !in Serialize(ParamsOf(s)))
      && '"' !in url
  {
    NoParamsIffDefault(s);
    UrlOfShape(ParamsOf(s));
  }

  /** `<iframe>` attribute text `name="value"`. */
  function Attribute(name: string, value: string): string {
    name + "=\"" + value + "\""
  }

  const SnippetOpen := "<iframe \n  "
  const LineBreak := " \n  "
  const SnippetClose := "\n  frameborder=\"0\"\n  style=\"border-radius: 8px; box-shadow: 0 4px 12px rgba(0,0,0,0.1);\"\n  title=\"民泊サポートチャット\"\n></iframe>"

  /** Where the three attributes sit in a concatenation of seven pieces. */
  lemma Pieces(a: string, b: string, c: string, d: string, e: string, f: string, g: string)
    ensures OccursAt(b, a + b + c + d + e + f + g, |a|)
    ensures OccursAt(d, a + b + c + d + e + f + g, |a| + |b| + |c|)
    ensures OccursAt(f, a + b + c + d + e + f + g, |a| + |b| + |c| + |d| + |e|)
  {
    var x := a + b + c + d + e + f + g;
    assert x[|a|..|a| + |b|] == b;
    assert x[|a| + |b| + |c|..|a| + |b| + |c| + |d|] == d;
    assert x[|a| + |b| + |c| + |d| + |e|..|a| + |b| + |c| + |d| + |e| + |f|] == f;
  }

  /** The `<iframe>` snippet: its `src`, `width` and `height` attributes hold the
      URL and the sizes as `toString` writes them, one per line, in that order. */
  function EmbedCode(url: string, width: Num, height: Num): (code: string)
    ensures OccursAt(Attribute("src", url), code, |SnippetOpen|)
    ensures OccursAt(Attribute("width", ToString(width)), code,
                     |SnippetOpen| + |Attribute("src", url)| + |LineBreak|)
    ensures OccursAt(Attribute("height", ToString(height)), code,
                     |SnippetOpen| + |Attribute("src", url)| + |LineBreak| + |Attribute("width", ToString(width))| + |LineBreak|)
  {
    var src := Attribute("src", url);
    var w := Attribute("width", ToString(width));
    var h := Attribute("height", ToString(height));
    Pieces(SnippetOpen, src, LineBreak, w, LineBreak, h, SnippetClose);
    SnippetOpen + src + LineBreak + w + LineBreak + h + SnippetClose
  }

  /** The URL in the snippet is the whole `src` value: it holds no '"'. */
  lemma SnippetSourceIsUrl(s: Settings)
    ensures var url := EmbedUrl(s);
      && '"' !in url
      && OccursAt(Attribute("src", url), EmbedCode(url, s.width, s.height), |SnippetOpen|)
  {
    EmbedUrlShape(s);
  }

  /** The `k`-th conditional `set` appends to the pairs before it, since its name
      is not among them. */
  lemma SetStep(s: Settings, k: nat)
    requires k < |Names|
    ensures var slot := SlotOf(s, k);
      Prefix(s, k + 1) == if slot.emit then Set(Prefix(s, k), slot.name, slot.value) else Prefix(s, k)
  {
    var slot := SlotOf(s, k);
    PrefixRanks(s, k);
    RankOfName(k);
    SetFresh(Prefix(s, k), slot.name, slot.value);
  }

  /** The first three `set` calls: theme, colour and width. */
  method SetAppearance(config: Settings) returns (params: seq<Param>)
    ensures params == Prefix(config, 3)
  {
    params := [];
    SetStep(config, 0);
    if config.theme != DefaultTheme {
      params := Set(params, "theme", config.theme);
    }
    assert params == Prefix(config, 1);
    SetStep(config, 1);
    if config.primaryColor != DefaultColor {
      params := Set(params, "primaryColor", config.primaryColor);
    }
    assert params == Prefix(config, 2);
    SetStep(config, 2);
    if config.width != Int(DefaultWidth) {
      params := Set(params, "width", ToString(config.width));
    }
  }

  /** The last three `set` calls: height, header flag and greeting. */
  method SetLayout(config: Settings, params: seq<Param>) returns (params': seq<Param>)
    requires params == Prefix(config, 3)
    ensures params' == Prefix(config, 6)
  {
    params' := params;
    SetStep(config, 3);
    if config.height != Int(DefaultHeight) {
      params' := Set(params', "height", ToString(config.height));
    }
    assert params' == Prefix(config, 4);
    SetStep(config, 4);
    if !config.showHeader {
      params' := Set(params', "showHeader", "false");
    }
    assert params' == Prefix(config, 5);
    SetStep(config, 5);
    if config.welcomeMessage != ChatInterface.DefaultWelcome {
      params' := Set(params', "welcomeMessage", UriCodec.EncodeURIComponent(config.welcomeMessage));
    }
  }

  /** The demo page's state. */
  class Demo {
    /** The URL shown in the preview and in the snippet, as last generated. */
    var embedUrl: string
    var config: Settings

    constructor ()
      ensures embedUrl == BaseUrl && config == DefaultSettings
    {
      embedUrl := BaseUrl;
      config := DefaultSettings;
    }

    /** `generateEmbedUrl`: successive conditional `params.set` calls, then the URL. */
    method GenerateEmbedUrl()
      modifies `embedUrl
      ensures embedUrl == EmbedUrl(config)
    {
      var params := BuildParams();
      var query := Serialize(params);
      embedUrl := if query != "" then BaseUrl + "?" + query else BaseUrl;
    }

    /** The successive conditional `params.set` calls of `generateEmbedUrl`. */
    method BuildParams() returns (params: seq<Param>)
      ensures params == ParamsOf(config)
    {
      params := SetAppearance(config);
      params := SetLayout(config, params);
    }
    /** `generateEmbedCode`: the snippet for the URL last generated and the
        current sizes. */
    function GenerateEmbedCode(): (code: string)
      reads this
      ensures OccursAt(Attribute("src", embedUrl), code, |SnippetOpen|)
      ensures OccursAt(Attribute("width", ToString(config.width)), code,
                       |SnippetOpen| + |Attribute("src", embedUrl)| + |LineBreak|)
      ensures OccursAt(Attribute("height", ToString(config.height)), code,
                       |SnippetOpen| + |Attribute("src", embedUrl)| + |LineBreak|
                       + |Attribute("width", ToString(config.width))| + |LineBreak|)
    {
      EmbedCode(embedUrl, config.width, config.height)
    }
  }
}
