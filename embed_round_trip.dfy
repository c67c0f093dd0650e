/** The link between the two pages: the embed page, loaded from the URL the
    demo page generates, ends up with the settings chosen on the demo page,
    except that an empty theme, colour or greeting falls back to the default. */
module EmbedRoundTrip {
  import opened Wrappers
  import opened JsText
  import opened JsNumber
  import UriCodec
  import opened FormUrlencoded
  import ChatInterface
  import DemoPage
  import opened EmbedPage

  /** The configuration the embed page should end up with for demo settings `s`.
      A size comes back as `parseInt` reads what `toString` wrote, which is the
      size itself exactly when it is written in plain notation (below 10^21). */
  function Expected(s: DemoPage.Settings): EmbedConfig {
    EmbedConfig(
      if s.theme == "" then DefaultTheme else s.theme,
      if s.primaryColor == "" then DefaultColor else s.primaryColor,
      DefaultPosition,
      ParseInt(ToString(s.width)),
      ParseInt(ToString(s.height)),
      s.showHeader,
      if s.welcomeMessage == "" then ChatInterface.DefaultWelcome else s.welcomeMessage)
  }

  /** The search part of the generated URL reads back as the pairs the demo page set. */
  lemma SearchOfGenerated(s: DemoPage.Settings)
    ensures var url := DemoPage.EmbedUrl(s);
      && StartsWith(url, DemoPage.BaseUrl)
      && FromSearch(url[|DemoPage.BaseUrl|..]) == DemoPage.ParamsOf(s)
  {
    SearchOfUrl(DemoPage.ParamsOf(s));
    ParseSerialize(DemoPage.ParamsOf(s));
  }

  /** The part of the URL after the base URL is the search part the query
      parser reads the query from. */
  lemma SearchOfUrl(ps: seq<Param>)
    ensures var url := DemoPage.UrlOf(ps);
      && StartsWith(url, DemoPage.BaseUrl)
      && FromSearch(url[|DemoPage.BaseUrl|..]) == Parse(Serialize(ps))
  {
    var query := Serialize(ps);
    var url := DemoPage.UrlOf(ps);
    if query != "" {
      AfterPrefix(DemoPage.BaseUrl, "?" + query);
      assert url == DemoPage.BaseUrl + ("?" + query);
      FromSearchOfQuery(query);
    } else {
      AfterPrefix(DemoPage.BaseUrl, "");
      assert url == DemoPage.BaseUrl + "";
    }
  }

  lemma FromSearchOfQuery(query: string)
    ensures FromSearch("?" + query) == Parse(query)
  {
    assert ("?" + query)[1..] == query;
  }

  lemma AfterPrefix(a: string, b: string)
    ensures StartsWith(a + b, a) && (a + b)[|a|..] == b
  {
    assert (a + b)[..|a|] == a;
  }

  /** The theme and colour come back, an empty one as the default. */
  lemma TextFieldsRoundTrip(s: DemoPage.Settings)
    ensures var ps := DemoPage.ParamsOf(s);
      && Given(ps, "theme") == (if s.theme in {DefaultTheme, ""} then None else Some(s.theme))
      && Given(ps, "primaryColor") == (if s.primaryColor in {DefaultColor, ""} then None else Some(s.primaryColor))
  {
    DemoPage.ParamsEmitted(s);
  }

  /** A size comes back through `toString` and `parseInt`, NaN included, exactly
      when it is written in plain notation, and the header flag through "false". */
  lemma SizeAndHeaderRoundTrip(s: DemoPage.Settings)
    ensures var ps := DemoPage.ParamsOf(s);
      && (Given(ps, "width").Some? ==> (ParseInt(Given(ps, "width").value) == s.width <==> PlainNotation(s.width)))
      && (Given(ps, "width").None? <==> s.width == Int(DefaultWidth))
      && (Given(ps, "height").Some? ==> (ParseInt(Given(ps, "height").value) == s.height <==> PlainNotation(s.height)))
      && (Given(ps, "height").None? <==> s.height == Int(DefaultHeight))
      && Given(ps, "showHeader") == (if s.showHeader then None else Some("false"))
  {
    DemoPage.ParamsEmitted(s);
    ParseIntToString(s.width);
    ParseIntToString(s.height);
  }

  /** The size each parameter sets, or the default it leaves in place, is what
      `parseInt` reads from the size's `toString`. */
  lemma SizesOfGenerated(s: DemoPage.Settings)
    ensures var ps := DemoPage.ParamsOf(s);
      && (if Given(ps, "width").Some? then ParseInt(Given(ps, "width").value) else Int(DefaultWidth))
         == ParseInt(ToString(s.width))
      && (if Given(ps, "height").Some? then ParseInt(Given(ps, "height").value) else Int(DefaultHeight))
         == ParseInt(ToString(s.height))
  {
    DemoPage.ParamsEmitted(s);
    ParseIntToString(Int(DefaultWidth));
    ParseIntToString(Int(DefaultHeight));
  }

  /** A custom greeting comes back through `encodeURIComponent` and
      `decodeURIComponent`; an empty one is not given at all. */
  lemma GreetingRoundTrip(s: DemoPage.Settings)
    ensures var ps := DemoPage.ParamsOf(s);
      && (Given(ps, "welcomeMessage").None? <==> s.welcomeMessage in {ChatInterface.DefaultWelcome, ""})
      && (Given(ps, "welcomeMessage").Some? ==>
            UriCodec.DecodeURIComponent(Given(ps, "welcomeMessage").value) == Some(s.welcomeMessage))
  {
    DemoPage.ParamsEmitted(s);
    UriCodec.EncodeEmpty(s.welcomeMessage);
    UriCodec.DecodeEncode(s.welcomeMessage);
  }

  /** Mounting the embed page on the generated URL never throws, sets the
      expected configuration and, inside a frame, asks for the chosen size, with
      400 and 600 standing in for a size that is 0 or NaN. */
  lemma MountOfGenerated(s: DemoPage.Settings)
    ensures var url := DemoPage.EmbedUrl(s);
      var o := OverridesOf(FromSearch(url[|DemoPage.BaseUrl|..]));
      && o.Ok?
      && Merge(DefaultConfig, o.value) == Expected(s)
      && SizeOr(o.value.width, DefaultWidth) ==
         (if Truthy(Expected(s).width) then Expected(s).width else Int(DefaultWidth))
      && SizeOr(o.value.height, DefaultHeight) ==
         (if Truthy(Expected(s).height) then Expected(s).height else Int(DefaultHeight))
  {
    SearchOfGenerated(s);
    SizesOfGenerated(s);
    TextFieldsRoundTrip(s);
    SizeAndHeaderRoundTrip(s);
    GreetingRoundTrip(s);
  }

  /** Settings with a non-empty theme, colour and greeting survive the trip
      unchanged exactly when both sizes are written in plain notation; a size
      of 10^21 or more comes back as its leading digit. */
  lemma RoundTrip(s: DemoPage.Settings)
    requires s.theme != "" && s.primaryColor != "" && s.welcomeMessage != ""
    ensures var o := OverridesOf(FromSearch(DemoPage.EmbedUrl(s)[|DemoPage.BaseUrl|..]));
      && o.Ok?
      && (Merge(DefaultConfig, o.value) ==
          EmbedConfig(s.theme, s.primaryColor, DefaultPosition, s.width, s.height, s.showHeader, s.welcomeMessage)
          <==> PlainNotation(s.width) && PlainNotation(s.height))
  {
    MountOfGenerated(s);
    ParseIntToString(s.width);
    ParseIntToString(s.height);
  }

  /** An empty custom greeting comes back as the default greeting. */
  lemma EmptyGreetingIsDefault(s: DemoPage.Settings)
    requires s.welcomeMessage == ""
    ensures var o := OverridesOf(FromSearch(DemoPage.EmbedUrl(s)[|DemoPage.BaseUrl|..]));
      o.Ok? && Merge(DefaultConfig, o.value).welcomeMessage == ChatInterface.DefaultWelcome
  {
    MountOfGenerated(s);
  }
}
