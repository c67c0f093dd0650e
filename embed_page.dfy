/** The page loaded inside the widget's `<iframe>`: on mount it reads its
    settings from the query string of its own URL, merges them over the
    defaults and tells the parent window the size to give the frame; minimising
    and restoring send the size again. Whether the page runs inside a frame is
    a parameter; applying the theme class and colour to the document is not part
    of this model. */
module EmbedPage {
  import opened Wrappers
  import opened JsNumber
  import UriCodec
  import opened FormUrlencoded
  import ChatInterface

  const DefaultTheme := "auto"
  const DefaultColor := "#e67e22"
  const DefaultPosition := "bottom-right"
  const DefaultWidth := 400
  const DefaultHeight := 600
  /** The side of the minimised widget. */
  const MinimizedSize := 60
  /** The error `decodeURIComponent` throws on a malformed escape. */
  const MalformedUri := "URIError: URI malformed"

  /** `EmbedConfig`; a size is what `parseInt` made of the parameter, so it may be NaN. */
  datatype EmbedConfig = EmbedConfig(
    theme: string,
    primaryColor: string,
    position: string,
    width: Num,
    height: Num,
    showHeader: bool,
    welcomeMessage: string)

  const DefaultConfig := EmbedConfig(DefaultTheme, DefaultColor, DefaultPosition, Int(DefaultWidth), Int(DefaultHeight),
                                     true, ChatInterface.DefaultWelcome)

  /** `Partial<EmbedConfig>` as the mount effect fills it: None for a field the
      effect leaves unset. */
  datatype Overrides = Overrides(
    theme: Option<string>,
    primaryColor: Option<string>,
    width: Option<Num>,
    height: Option<Num>,
    showHeader: Option<bool>,
    welcomeMessage: Option<string>)

  const NoOverrides := Overrides(None, None, None, None, None, None)

  /** A message posted to the parent window. */
  datatype ParentMessage = Resize(width: Num, height: Num) | Close

  /** `if (urlParams.get(name))`: the parameter's value when it is present and not empty. */
  function Given(ps: seq<Param>, name: string): Option<string> {
    var v := Get(ps, name);
    if v.Some? && v.value != "" then v else None
  }

  /** What the mount effect puts into `newConfig`, or the error it throws when
      the greeting is not a well-formed percent-encoding. */
  function OverridesOf(ps: seq<Param>): Result<Overrides> {
    var theme := Given(ps, "theme");
    var color := Given(ps, "primaryColor");
    var width := Given(ps, "width");
    var height := Given(ps, "height");
    var header := Given(ps, "showHeader");
    var welcome := Given(ps, "welcomeMessage");
    var decoded := if welcome.Some? then UriCodec.DecodeURIComponent(welcome.value) else None;
    if welcome.Some? && decoded.None? then Err(MalformedUri)
    else Ok(Overrides(
      theme,
      color,
      if width.Some? then Some(ParseInt(width.value)) else None,
      if height.Some? then Some(ParseInt(height.value)) else None,
      if header.Some? then Some(header.value == "true") else None,
      decoded))
  }

  /** `{ ...config, ...newConfig }`: every field the effect set replaces the old one. */
  function Merge(c: EmbedConfig, o: Overrides): EmbedConfig {
    EmbedConfig(
      if o.theme.Some? then o.theme.value else c.theme,
      if o.primaryColor.Some? then o.primaryColor.value else c.primaryColor,
      c.position,
      if o.width.Some? then o.width.value else c.width,
      if o.height.Some? then o.height.value else c.height,
      if o.showHeader.Some? then o.showHeader.value else c.showHeader,
      if o.welcomeMessage.Some? then o.welcomeMessage.value else c.welcomeMessage)
  }

  /** `size || fallback`: a size that was not set, or is 0 or NaN, gives the
      fallback; any other size is sent as it is. */
  function SizeOr(size: Option<Num>, fallback: int): (r: Num)
    ensures r == Int(fallback) <==> size.None? || !Truthy(size.value) || size.value == Int(fallback)
    ensures r != Int(fallback) ==> size == Some(r) && Truthy(r)
  {
    if size.Some? && Truthy(size.value) then size.value else Int(fallback)
  }

  /** A parameter that is absent or empty leaves the field as it was. */
  lemma UnsetKeepsField(ps: seq<Param>, c: EmbedConfig)
    requires OverridesOf(ps).Ok?
    ensures var m := Merge(c, OverridesOf(ps).value);
      && (Get(ps, "theme") in {None, Some("")} ==> m.theme == c.theme)
      && (Get(ps, "primaryColor") in {None, Some("")} ==> m.primaryColor == c.primaryColor)
      && (Get(ps, "width") in {None, Some("")} ==> m.width == c.width)
      && (Get(ps, "height") in {None, Some("")} ==> m.height == c.height)
      && (Get(ps, "showHeader") in {None, Some("")} ==> m.showHeader == c.showHeader)
      && (Get(ps, "welcomeMessage") in {None, Some("")} ==> m.welcomeMessage == c.welcomeMessage)
      && m.position == c.position
  {
  }

  /** A given `showHeader` is true only for the exact text "true"; any other
      non-empty text, "false" or "1" alike, hides the header. */
  lemma ShowHeaderOnlyForTrue(ps: seq<Param>, c: EmbedConfig, v: string)
    requires OverridesOf(ps).Ok?
    requires Get(ps, "showHeader") == Some(v) && v != ""
    ensures Merge(c, OverridesOf(ps).value).showHeader <==> v == "true"
  {
  }

  /** A given size is read with `parseInt`, which may give NaN; a given theme or
      colour is taken as it is, whatever its text. */
  lemma GivenFieldsParsed(ps: seq<Param>, c: EmbedConfig)
    requires OverridesOf(ps).Ok?
    ensures var m := Merge(c, OverridesOf(ps).value);
      && (Given(ps, "width").Some? ==> m.width == ParseInt(Given(ps, "width").value))
      && (Given(ps, "height").Some? ==> m.height == ParseInt(Given(ps, "height").value))
      && (Given(ps, "theme").Some? ==> m.theme == Given(ps, "theme").value)
      && (Given(ps, "primaryColor").Some? ==> m.primaryColor == Given(ps, "primaryColor").value)
  {
  }

  /** A given greeting is percent-decoded; the effect throws, and sets nothing,
      exactly when that decoding fails. */
  lemma GreetingDecoded(ps: seq<Param>, c: EmbedConfig)
    ensures OverridesOf(ps).Err? <==>
      Given(ps, "welcomeMessage").Some? && UriCodec.DecodeURIComponent(Given(ps, "welcomeMessage").value).None?
    ensures OverridesOf(ps).Ok? && Given(ps, "welcomeMessage").Some? ==>
      Some(Merge(c, OverridesOf(ps).value).welcomeMessage) == UriCodec.DecodeURIComponent(Given(ps, "welcomeMessage").value)
  {
  }

  /** The first part of the mount effect: `newConfig` filled field by field
      from the parameters, or the error `decodeURIComponent` throws. */
  method ReadOverrides(ps: seq<Param>) returns (r: Result<Overrides>)
    ensures r == OverridesOf(ps)
  {
    var newConfig := NoOverrides;
    var theme := Get(ps, "theme");
    if theme.Some? && theme.value != "" {
      newConfig := newConfig.(theme := Some(theme.value));
    }
    var color := Get(ps, "primaryColor");
    if color.Some? && color.value != "" {
      newConfig := newConfig.(primaryColor := Some(color.value));
    }
    newConfig := ReadSizes(ps, newConfig);
    var header := Get(ps, "showHeader");
    if header.Some? && header.value != "" {
      newConfig := newConfig.(showHeader := Some(header.value == "true"));
    }
    var welcome := Get(ps, "welcomeMessage");
    if welcome.Some? && welcome.value != "" {
      var decoded := UriCodec.DecodeURIComponent(welcome.value);
      if decoded.None? {
        return Err(MalformedUri);
      }
      newConfig := newConfig.(welcomeMessage := decoded);
    }
    return Ok(newConfig);
  }

  /** The two size parameters of the mount effect, read with `parseInt`. */
  method ReadSizes(ps: seq<Param>, newConfig: Overrides) returns (r: Overrides)
    ensures r == newConfig.(width := if Given(ps, "width").Some? then Some(ParseInt(Given(ps, "width").value)) else newConfig.width,
                            height := if Given(ps, "height").Some? then Some(ParseInt(Given(ps, "height").value)) else newConfig.height)
  {
    r := newConfig;
    var width := Get(ps, "width");
    if width.Some? && width.value != "" {
      r := r.(width := Some(ParseInt(width.value)));
    }
    var height := Get(ps, "height");
    if height.Some? && height.value != "" {
      r := r.(height := Some(ParseInt(height.value)));
    }
  }

  /** The widget page's state. */
  class Embed {
    var config: EmbedConfig
    var isMinimized: bool
    /** The messages posted to the parent window so far. */
    var posted: seq<ParentMessage>
    /** `isIframe()`. */
    const inFrame: bool

    constructor (inFrame: bool)
      ensures config == DefaultConfig && !isMinimized && posted == [] && this.inFrame == inFrame
    {
      config := DefaultConfig;
      isMinimized := false;
      posted := [];
      this.inFrame := inFrame;
    }

    /** The mount effect on the URL's search part `search`: it fills `newConfig`
        field by field, merges it into the configuration and, inside a frame,
        posts the parsed size with 400 and 600 as fallbacks. A malformed greeting
        throws before anything is set or posted. */
    method Mount(search: string) returns (r: Result<()>)
      modifies this
      ensures isMinimized == old(isMinimized)
      ensures var o := OverridesOf(FromSearch(search));
        && (o.Err? ==> r == Err(o.error) && config == old(config) && posted == old(posted))
        && (o.Ok? ==>
              && r.Ok? && config == Merge(old(config), o.value)
              && posted == old(posted) + (if inFrame then [Resize(SizeOr(o.value.width, DefaultWidth),
                                                                  SizeOr(o.value.height, DefaultHeight))]
                                          else []))
    {
      var newConfig := ReadOverrides(FromSearch(search));
      if newConfig.Err? {
        return Err(newConfig.error);
      }
      config := Merge(config, newConfig.value);
      if inFrame {
        posted := posted + [Resize(SizeOr(newConfig.value.width, DefaultWidth),
                                   SizeOr(newConfig.value.height, DefaultHeight))];
      }
      return Ok(());
    }

    /** `handleClose`: asks the parent to close the widget. */
    method HandleClose()
      modifies `posted
      ensures posted == old(posted) + (if inFrame then [Close] else [])
    {
      if inFrame {
        posted := posted + [Close];
      }
    }

    /** `handleMinimize`: the frame shrinks to 60 by 60 whatever the configuration. */
    method HandleMinimize()
      modifies `isMinimized, `posted
      ensures isMinimized
      ensures posted == old(posted) + (if inFrame then [Resize(Int(MinimizedSize), Int(MinimizedSize))] else [])
    {
      isMinimized := true;
      if inFrame {
        posted := posted + [Resize(Int(MinimizedSize), Int(MinimizedSize))];
      }
    }

    /** `handleRestore`: the frame goes back to the configured size, as it is
        (a NaN or 0 size is sent unchanged here, unlike at mount). */
    method HandleRestore()
      modifies `isMinimized, `posted
      ensures !isMinimized
      ensures posted == old(posted) + (if inFrame then [Resize(config.width, config.height)] else [])
    {
      isMinimized := false;
      if inFrame {
        posted := posted + [Resize(config.width, config.height)];
      }
    }
  }
}
