/**
 * Input sanitisation, validation and output escaping for slider
 * configurations and slides (class CTA_Slider_Security).  Every operation
 * is a total function from a raw PHP array to a canonical record.
 */
module Security {
  import opened Php

  const ButtonStyles: seq<string> := [
    "btn-primary", "btn-secondary", "btn-success", "btn-danger",
    "btn-warning", "btn-info", "btn-light", "btn-dark"
  ]
  const Transitions: seq<string> := ["slide", "crossfade"]
  const ImageFits: seq<string> := ["cover", "contain", "none"]

  const MinInterval := 1000
  const MaxInterval := 30000
  const DefaultInterval := 5000

  /** `in_array($v, $allowed)` against a whitelist of non-numeric strings. */
  predicate InWhitelist(v: Value, allowed: seq<string>) {
    v.Str? && v.s in allowed
  }

  /** `isset($bag[$k]) ? (bool)$bag[$k] : $default` */
  function FlagOr(bag: Bag, k: Key, default: bool): bool {
    if IsSet(bag, k) then ToBool(bag[k]) else default
  }

  /** `max(1000, min(30000, $n))` */
  function ClampInterval(n: int): int {
    if n < MinInterval then MinInterval else if n > MaxInterval then MaxInterval else n
  }

  // ---------------------------------------------------------------------
  // Slider configuration

  datatype SliderConfig = SliderConfig(
    id: string,
    name: string,
    indicators: bool,
    controls: bool,
    transition: string,
    autoplay: bool,
    interval: int,
    keyboard: bool,
    touch: bool,
    pauseHover: bool,
    wrap: bool,
    active: bool,
    imageHeight: string,
    imageFit: string)

  /** The PHP array a configuration record is. */
  function ConfigBag(c: SliderConfig): Bag {
    map[
      Id := Str(c.id), Name := Str(c.name),
      Indicators := Bool(c.indicators), Controls := Bool(c.controls),
      Transition := Str(c.transition), Autoplay := Bool(c.autoplay),
      Interval := Int(c.interval), Keyboard := Bool(c.keyboard),
      Touch := Bool(c.touch), PauseHover := Bool(c.pauseHover),
      Wrap := Bool(c.wrap), Active := Bool(c.active),
      ImageHeight := Str(c.imageHeight), ImageFit := Str(c.imageFit)
    ]
  }

  /** `sanitize_slider_config`: every field is coerced to its type, enums are
      whitelisted, the interval is clamped and absent fields take defaults. */
  function SanitizeSliderConfig(h: Helpers, config: Bag): (c: SliderConfig)
    ensures MinInterval <= c.interval <= MaxInterval
    ensures c.transition in Transitions
    ensures c.imageFit in ImageFits
    ensures c.imageHeight == "auto" || MatchesDigitsPattern(c.imageHeight)
    ensures IsKey(c.id)
  {
    SliderConfig(
      id := if IsSet(config, Id) then KeyOf(config[Id]) else "",
      name := if IsSet(config, Name) then TextField(h, config[Name]) else "",
      indicators := FlagOr(config, Indicators, true),
      controls := FlagOr(config, Controls, true),
      transition := SanitizeTransition(config),
      autoplay := FlagOr(config, Autoplay, true),
      interval := SanitizeInterval(config),
      keyboard := FlagOr(config, Keyboard, true),
      touch := FlagOr(config, Touch, true),
      pauseHover := FlagOr(config, PauseHover, true),
      wrap := FlagOr(config, Wrap, true),
      active := FlagOr(config, Active, true),
      imageHeight := SanitizeImageHeight(h, config),
      imageFit := SanitizeImageFit(config))
  }

  /** The transition: the given one when whitelisted, else "slide". */
  function SanitizeTransition(config: Bag): (r: string)
    ensures r in Transitions
  {
    assert Transitions[0] == "slide";
    if IsSet(config, Transition) && InWhitelist(config[Transition], Transitions)
    then config[Transition].s else "slide"
  }

  /** The interval: `absint` of the given one clamped to the range, else the default. */
  function SanitizeInterval(config: Bag): (r: int)
    ensures MinInterval <= r <= MaxInterval
  {
    if IsSet(config, Interval) then ClampInterval(AbsInt(config[Interval])) else DefaultInterval
  }

  /** The image fit: the given one when whitelisted, else "cover". */
  function SanitizeImageFit(config: Bag): (r: string)
    ensures r in ImageFits
  {
    assert ImageFits[0] == "cover";
    if IsSet(config, ImageFit) && InWhitelist(config[ImageFit], ImageFits)
    then config[ImageFit].s else "cover"
  }

  /** The image height: "auto" unless its sanitised text is a digit string. */
  function SanitizeImageHeight(h: Helpers, config: Bag): (r: string)
    ensures r == "auto" || MatchesDigitsPattern(r)
  {
    var rawHeight := if IsSet(config, ImageHeight) then TextField(h, config[ImageHeight]) else "auto";
    if rawHeight != "auto" && !MatchesDigitsPattern(rawHeight) then "auto" else rawHeight
  }

  /** An interval outside [1000, 30000] moves to the nearest bound, one inside
      is kept, and an absent one is 5000. */
  lemma IntervalClampedToNearestBound(h: Helpers, config: Bag)
    ensures var c := SanitizeSliderConfig(h, config);
      && (!IsSet(config, Interval) ==> c.interval == DefaultInterval)
      && (IsSet(config, Interval) ==>
            var n := AbsInt(config[Interval]);
            && (n < MinInterval ==> c.interval == MinInterval)
            && (n > MaxInterval ==> c.interval == MaxInterval)
            && (MinInterval <= n <= MaxInterval ==> c.interval == n))
  {
  }

  /** Unknown transitions become "slide", unknown fits become "cover", and
      whitelisted values are kept. */
  lemma EnumFallbacks(h: Helpers, config: Bag)
    ensures var c := SanitizeSliderConfig(h, config);
      && (c.transition == "crossfade" <==> Get(config, Transition) == Str("crossfade"))
      && (c.imageFit == "cover" <==> !(IsSet(config, ImageFit) && InWhitelist(config[ImageFit], ["contain", "none"])))
      && (IsSet(config, ImageFit) && InWhitelist(config[ImageFit], ImageFits) ==> c.imageFit == config[ImageFit].s)
  {
  }

  /** The image height is "auto" when absent or when its text is not a digit
      string; otherwise it is the sanitised text. */
  lemma ImageHeightRule(h: Helpers, config: Bag)
    ensures var c := SanitizeSliderConfig(h, config);
      && (!IsSet(config, ImageHeight) ==> c.imageHeight == "auto")
      && (IsSet(config, ImageHeight) ==>
            var t := TextField(h, config[ImageHeight]);
            c.imageHeight == if MatchesDigitsPattern(t) then t else "auto")
  {
  }

  /** Absent flags of a slider configuration are all on. */
  lemma SliderFlagsDefaultOn(h: Helpers, config: Bag)
    requires forall k :: k in [Indicators, Controls, Autoplay, Keyboard, Touch, PauseHover, Wrap, Active] ==> !IsSet(config, k)
    ensures var c := SanitizeSliderConfig(h, config);
      c.indicators && c.controls && c.autoplay && c.keyboard && c.touch && c.pauseHover && c.wrap && c.active
  {
  }

  /** Every key of the configuration's array holds the field of the same name. */
  lemma ConfigBagLookups(c: SliderConfig)
    ensures var b := ConfigBag(c);
      && Get(b, Id) == Str(c.id) && Get(b, Name) == Str(c.name)
      && Get(b, Indicators) == Bool(c.indicators) && Get(b, Controls) == Bool(c.controls)
      && Get(b, Transition) == Str(c.transition) && Get(b, Autoplay) == Bool(c.autoplay)
      && Get(b, Interval) == Int(c.interval) && Get(b, Keyboard) == Bool(c.keyboard)
      && Get(b, Touch) == Bool(c.touch) && Get(b, PauseHover) == Bool(c.pauseHover)
      && Get(b, Wrap) == Bool(c.wrap) && Get(b, Active) == Bool(c.active)
      && Get(b, ImageHeight) == Str(c.imageHeight) && Get(b, ImageFit) == Str(c.imageFit)
  {
    ConfigBagFront(c);
    ConfigBagMiddle(c);
    ConfigBagBack(c);
  }

  lemma ConfigBagFront(c: SliderConfig)
    ensures var b := ConfigBag(c);
      && Get(b, Id) == Str(c.id) && Get(b, Name) == Str(c.name)
      && Get(b, Indicators) == Bool(c.indicators)
  {
  }

  lemma ConfigBagMiddle(c: SliderConfig)
    ensures var b := ConfigBag(c);
      && Get(b, Controls) == Bool(c.controls)
      && Get(b, Transition) == Str(c.transition) && Get(b, Autoplay) == Bool(c.autoplay)
      && Get(b, Interval) == Int(c.interval)
  {
  }

  lemma ConfigBagBack(c: SliderConfig)
    ensures var b := ConfigBag(c);
      && Get(b, Keyboard) == Bool(c.keyboard)
      && Get(b, Touch) == Bool(c.touch) && Get(b, PauseHover) == Bool(c.pauseHover)
      && Get(b, Wrap) == Bool(c.wrap) && Get(b, Active) == Bool(c.active)
      && Get(b, ImageHeight) == Str(c.imageHeight) && Get(b, ImageFit) == Str(c.imageFit)
  {
  }

  /** The fields of a configuration are each a fixed point of their sanitiser. */
  ghost predicate SanitizedConfig(h: Helpers, c: SliderConfig) {
    && IsKey(c.id)
    && h.textField(c.name) == c.name
    && c.transition in Transitions
    && MinInterval <= c.interval <= MaxInterval
    && (c.imageHeight == "auto" || (h.textField(c.imageHeight) == c.imageHeight && MatchesDigitsPattern(c.imageHeight)))
    && c.imageFit in ImageFits
  }

  lemma SanitizeSliderConfigIsSanitized(h: Helpers, config: Bag)
    requires StableSanitizers(h)
    ensures SanitizedConfig(h, SanitizeSliderConfig(h, config))
  {
    var c := SanitizeSliderConfig(h, config);
    if IsSet(config, Name) {
      assert h.textField(h.textField(StrVal(config[Name]))) == h.textField(StrVal(config[Name]));
    }
    if IsSet(config, ImageHeight) {
      var t := h.textField(StrVal(config[ImageHeight]));
      assert h.textField(t) == t;
    }
  }

  /** Every field of `c` is stored under the key of the same name in `b`. */
  ghost predicate HoldsConfig(b: Bag, c: SliderConfig) {
    && Get(b, Id) == Str(c.id) && Get(b, Name) == Str(c.name)
    && Get(b, Indicators) == Bool(c.indicators) && Get(b, Controls) == Bool(c.controls)
    && Get(b, Transition) == Str(c.transition) && Get(b, Autoplay) == Bool(c.autoplay)
    && Get(b, Interval) == Int(c.interval) && Get(b, Keyboard) == Bool(c.keyboard)
    && Get(b, Touch) == Bool(c.touch) && Get(b, PauseHover) == Bool(c.pauseHover)
    && Get(b, Wrap) == Bool(c.wrap) && Get(b, Active) == Bool(c.active)
    && Get(b, ImageHeight) == Str(c.imageHeight) && Get(b, ImageFit) == Str(c.imageFit)
  }

  /** Re-sanitising an array that holds a sanitised configuration gives it back. */
  lemma ResanitizeConfig(h: Helpers, c: SliderConfig, b: Bag)
    requires h.textField("auto") == "auto" && SanitizedConfig(h, c) && HoldsConfig(b, c)
    ensures SanitizeSliderConfig(h, b) == c
  {
    KeptFlags(b, c);
    KeptFields(h, c, b);
  }

  lemma KeptFlags(b: Bag, c: SliderConfig)
    requires HoldsConfig(b, c)
    ensures && FlagOr(b, Indicators, true) == c.indicators && FlagOr(b, Controls, true) == c.controls
      && FlagOr(b, Autoplay, true) == c.autoplay && FlagOr(b, Keyboard, true) == c.keyboard
      && FlagOr(b, Touch, true) == c.touch && FlagOr(b, PauseHover, true) == c.pauseHover
      && FlagOr(b, Wrap, true) == c.wrap && FlagOr(b, Active, true) == c.active
  {
    KeptFlag(b, Indicators, c.indicators);
    KeptFlag(b, Controls, c.controls);
    KeptFlag(b, Autoplay, c.autoplay);
    KeptFlag(b, Keyboard, c.keyboard);
    KeptFlag(b, Touch, c.touch);
    KeptFlag(b, PauseHover, c.pauseHover);
    KeptFlag(b, Wrap, c.wrap);
    KeptFlag(b, Active, c.active);
  }

  lemma KeptFields(h: Helpers, c: SliderConfig, b: Bag)
    requires h.textField("auto") == "auto" && SanitizedConfig(h, c) && HoldsConfig(b, c)
    ensures && (if IsSet(b, Id) then KeyOf(b[Id]) else "") == c.id
      && (if IsSet(b, Name) then TextField(h, b[Name]) else "") == c.name
      && SanitizeTransition(b) == c.transition && SanitizeInterval(b) == c.interval
      && SanitizeImageFit(b) == c.imageFit && SanitizeImageHeight(h, b) == c.imageHeight
  {
    KeptId(b, c.id);
    KeptName(h, b, c.name);
    KeptTransition(b, c.transition);
    KeptInterval(b, c.interval);
    KeptImageFit(b, c.imageFit);
    KeptImageHeight(h, b, c.imageHeight);
  }

  lemma KeptId(b: Bag, k: string)
    requires IsKey(k) && Get(b, Id) == Str(k)
    ensures (if IsSet(b, Id) then KeyOf(b[Id]) else "") == k
  {
    SanitizeKeyFixesKeys(k);
    assert IsSet(b, Id) && b[Id] == Str(k);
  }

  lemma KeptName(h: Helpers, b: Bag, n: string)
    requires h.textField(n) == n && Get(b, Name) == Str(n)
    ensures (if IsSet(b, Name) then TextField(h, b[Name]) else "") == n
  {
    assert IsSet(b, Name) && b[Name] == Str(n);
  }

  lemma KeptFlag(b: Bag, k: Key, x: bool)
    requires Get(b, k) == Bool(x)
    ensures FlagOr(b, k, true) == x
  {
    assert IsSet(b, k) && b[k] == Bool(x);
  }

  lemma KeptTransition(b: Bag, t: string)
    requires t in Transitions && Get(b, Transition) == Str(t)
    ensures SanitizeTransition(b) == t
  {
    assert IsSet(b, Transition) && b[Transition] == Str(t);
  }

  lemma KeptInterval(b: Bag, n: int)
    requires MinInterval <= n <= MaxInterval && Get(b, Interval) == Int(n)
    ensures SanitizeInterval(b) == n
  {
    assert IsSet(b, Interval) && b[Interval] == Int(n);
  }

  lemma KeptImageFit(b: Bag, f: string)
    requires f in ImageFits && Get(b, ImageFit) == Str(f)
    ensures SanitizeImageFit(b) == f
  {
    assert IsSet(b, ImageFit) && b[ImageFit] == Str(f);
  }

  lemma KeptImageHeight(h: Helpers, b: Bag, v: string)
    requires h.textField("auto") == "auto"
    requires v == "auto" || (h.textField(v) == v && MatchesDigitsPattern(v))
    requires Get(b, ImageHeight) == Str(v)
    ensures SanitizeImageHeight(h, b) == v
  {
    assert IsSet(b, ImageHeight) && b[ImageHeight] == Str(v);
  }

  /** Sanitising a sanitised configuration changes nothing, which makes the
      second pass the admin screen and the settings facade both apply harmless. */
  lemma {:induction false} SanitizeSliderConfigIdempotent(h: Helpers, config: Bag)
    requires StableSanitizers(h)
    ensures var c := SanitizeSliderConfig(h, config);
      SanitizeSliderConfig(h, ConfigBag(c)) == c
  {
    var c := SanitizeSliderConfig(h, config);
    SanitizeSliderConfigIsSanitized(h, config);
    ConfigBagLookups(c);
    ResanitizeConfig(h, c, ConfigBag(c));
  }

  // ---------------------------------------------------------------------
  // Slide data

  datatype SlideData = SlideData(
    sliderId: string,
    order: nat,
    imageId: nat,
    imageAlt: string,
    captionEnabled: bool,
    captionTitle: string,
    captionText: string,
    buttonEnabled: bool,
    buttonText: string,
    buttonUrl: string,
    buttonStyle: string,
    buttonNewTab: bool,
    active: bool)

  /** The PHP array a sanitised slide record is. */
  function SlideBag(d: SlideData): Bag {
    map[
      SliderId := Str(d.sliderId), SlideOrder := Int(d.order),
      ImageId := Int(d.imageId), ImageAlt := Str(d.imageAlt),
      CaptionEnabled := Bool(d.captionEnabled), CaptionTitle := Str(d.captionTitle),
      CaptionText := Str(d.captionText), ButtonEnabled := Bool(d.buttonEnabled),
      ButtonText := Str(d.buttonText), ButtonUrl := Str(d.buttonUrl),
      ButtonStyle := Str(d.buttonStyle), ButtonNewTab := Bool(d.buttonNewTab),
      Active := Bool(d.active)
    ]
  }

  /** `sanitize_button_style`: the style itself when whitelisted, else "btn-primary". */
  function SanitizeButtonStyle(style: Value): (r: string)
    ensures r in ButtonStyles
    ensures style == Str(r) <==> InWhitelist(style, ButtonStyles)
    ensures !InWhitelist(style, ButtonStyles) ==> r == "btn-primary"
  {
    assert ButtonStyles[0] == "btn-primary";
    if InWhitelist(style, ButtonStyles) then style.s else "btn-primary"
  }

  lemma SanitizeButtonStyleIdempotent(style: Value)
    ensures SanitizeButtonStyle(Str(SanitizeButtonStyle(style))) == SanitizeButtonStyle(style)
  {
  }

  /** `sanitize_slide_data`: note that slide_order is always present in the
      result, 0 when the input has none. */
  function SanitizeSlideData(h: Helpers, data: Bag): (d: SlideData)
    ensures IsKey(d.sliderId)
    ensures d.buttonStyle in ButtonStyles
  {
    assert ButtonStyles[0] == "btn-primary";
    SlideData(
      sliderId := if IsSet(data, SliderId) then KeyOf(data[SliderId]) else "",
      order := if IsSet(data, SlideOrder) then AbsInt(data[SlideOrder]) else 0,
      imageId := if IsSet(data, ImageId) then AbsInt(data[ImageId]) else 0,
      imageAlt := if IsSet(data, ImageAlt) then TextField(h, data[ImageAlt]) else "",
      captionEnabled := FlagOr(data, CaptionEnabled, false),
      captionTitle := if IsSet(data, CaptionTitle) then TextField(h, data[CaptionTitle]) else "",
      captionText := if IsSet(data, CaptionText) then h.textareaField(StrVal(data[CaptionText])) else "",
      buttonEnabled := FlagOr(data, ButtonEnabled, false),
      buttonText := if IsSet(data, ButtonText) then TextField(h, data[ButtonText]) else "",
      buttonUrl := if IsSet(data, ButtonUrl) then EscUrlRaw(h, StrVal(data[ButtonUrl])) else "",
      buttonStyle := if IsSet(data, ButtonStyle) then SanitizeButtonStyle(data[ButtonStyle]) else "btn-primary",
      buttonNewTab := FlagOr(data, ButtonNewTab, false),
      active := FlagOr(data, Active, true))
  }

  /** Every key of the sanitised array holds the field of the same name. */
  lemma SlideBagLookups(d: SlideData)
    ensures var b := SlideBag(d);
      && Get(b, SliderId) == Str(d.sliderId) && Get(b, SlideOrder) == Int(d.order)
      && Get(b, ImageId) == Int(d.imageId) && Get(b, ImageAlt) == Str(d.imageAlt)
      && Get(b, CaptionEnabled) == Bool(d.captionEnabled) && Get(b, CaptionTitle) == Str(d.captionTitle)
      && Get(b, CaptionText) == Str(d.captionText) && Get(b, ButtonEnabled) == Bool(d.buttonEnabled)
      && Get(b, ButtonText) == Str(d.buttonText) && Get(b, ButtonUrl) == Str(d.buttonUrl)
      && Get(b, ButtonStyle) == Str(d.buttonStyle) && Get(b, ButtonNewTab) == Bool(d.buttonNewTab)
      && Get(b, Active) == Bool(d.active)
  {
    SlideBagFront(d);
    SlideBagMiddle(d);
    SlideBagBack(d);
  }

  lemma SlideBagFront(d: SlideData)
    ensures var b := SlideBag(d);
      && Get(b, SliderId) == Str(d.sliderId) && Get(b, SlideOrder) == Int(d.order)
      && Get(b, ImageId) == Int(d.imageId)
  {
  }

  lemma SlideBagMiddle(d: SlideData)
    ensures var b := SlideBag(d);
      && Get(b, ImageAlt) == Str(d.imageAlt)
      && Get(b, CaptionEnabled) == Bool(d.captionEnabled) && Get(b, CaptionTitle) == Str(d.captionTitle)
  {
  }

  lemma SlideBagBack(d: SlideData)
    ensures var b := SlideBag(d);
      && Get(b, CaptionText) == Str(d.captionText) && Get(b, ButtonEnabled) == Bool(d.buttonEnabled)
      && Get(b, ButtonText) == Str(d.buttonText) && Get(b, ButtonUrl) == Str(d.buttonUrl)
      && Get(b, ButtonStyle) == Str(d.buttonStyle) && Get(b, ButtonNewTab) == Bool(d.buttonNewTab)
      && Get(b, Active) == Bool(d.active)
  {
  }

  /** Absent slide fields: order 0, no image, caption and button off, style
      "btn-primary", active on. */
  lemma SlideDefaults(h: Helpers, data: Bag)
    ensures var d := SanitizeSlideData(h, data);
      && (!IsSet(data, SlideOrder) ==> d.order == 0)
      && (!IsSet(data, ImageId) ==> d.imageId == 0)
      && (!IsSet(data, CaptionEnabled) ==> !d.captionEnabled)
      && (!IsSet(data, ButtonEnabled) ==> !d.buttonEnabled)
      && (!IsSet(data, ButtonNewTab) ==> !d.buttonNewTab)
      && (!IsSet(data, ButtonStyle) ==> d.buttonStyle == "btn-primary")
      && (!IsSet(data, Active) ==> d.active)
  {
  }

  lemma EscUrlRawIdempotent(h: Helpers, s: string)
    requires StableSanitizers(h)
    ensures EscUrlRaw(h, EscUrlRaw(h, s)) == EscUrlRaw(h, s)
  {
    if s != "" && h.urlRaw(s) != "" {
      assert h.urlRaw(h.urlRaw(s)) == h.urlRaw(s);
    }
  }

  /** The fields of a slide are each a fixed point of their sanitiser. */
  ghost predicate SanitizedSlide(h: Helpers, d: SlideData) {
    && IsKey(d.sliderId)
    && h.textField(d.imageAlt) == d.imageAlt
    && h.textField(d.captionTitle) == d.captionTitle
    && h.textareaField(d.captionText) == d.captionText
    && h.textField(d.buttonText) == d.buttonText
    && EscUrlRaw(h, d.buttonUrl) == d.buttonUrl
    && d.buttonStyle in ButtonStyles
  }

  lemma SanitizeSlideDataIsSanitized(h: Helpers, data: Bag)
    requires StableSanitizers(h)
    ensures SanitizedSlide(h, SanitizeSlideData(h, data))
  {
    var d := SanitizeSlideData(h, data);
    if IsSet(data, ImageAlt) { assert h.textField(h.textField(StrVal(data[ImageAlt]))) == d.imageAlt; }
    if IsSet(data, CaptionTitle) { assert h.textField(h.textField(StrVal(data[CaptionTitle]))) == d.captionTitle; }
    if IsSet(data, CaptionText) { assert h.textareaField(h.textareaField(StrVal(data[CaptionText]))) == d.captionText; }
    if IsSet(data, ButtonText) { assert h.textField(h.textField(StrVal(data[ButtonText]))) == d.buttonText; }
    if IsSet(data, ButtonUrl) { EscUrlRawIdempotent(h, StrVal(data[ButtonUrl])); }
  }

  /** Re-sanitising an array that holds a sanitised slide gives it back. */
  lemma ResanitizeSlide(h: Helpers, d: SlideData, b: Bag)
    requires SanitizedSlide(h, d)
    requires && Get(b, SliderId) == Str(d.sliderId) && Get(b, SlideOrder) == Int(d.order)
      && Get(b, ImageId) == Int(d.imageId) && Get(b, ImageAlt) == Str(d.imageAlt)
      && Get(b, CaptionEnabled) == Bool(d.captionEnabled) && Get(b, CaptionTitle) == Str(d.captionTitle)
      && Get(b, CaptionText) == Str(d.captionText) && Get(b, ButtonEnabled) == Bool(d.buttonEnabled)
      && Get(b, ButtonText) == Str(d.buttonText) && Get(b, ButtonUrl) == Str(d.buttonUrl)
      && Get(b, ButtonStyle) == Str(d.buttonStyle) && Get(b, ButtonNewTab) == Bool(d.buttonNewTab)
      && Get(b, Active) == Bool(d.active)
    ensures SanitizeSlideData(h, b) == d
  {
    SanitizeKeyFixesKeys(d.sliderId);
    var d2 := SanitizeSlideData(h, b);
    assert d2.sliderId == d.sliderId;
    assert d2.buttonUrl == d.buttonUrl;
  }

  /** Sanitising sanitised slide data changes nothing: the admin screen
      sanitises the form once and the slide manager a second time. */
  lemma {:induction false} SanitizeSlideDataIdempotent(h: Helpers, data: Bag)
    requires StableSanitizers(h)
    ensures var d := SanitizeSlideData(h, data);
      SanitizeSlideData(h, SlideBag(d)) == d
  {
    var d := SanitizeSlideData(h, data);
    SanitizeSlideDataIsSanitized(h, data);
    SlideBagLookups(d);
    ResanitizeSlide(h, d, SlideBag(d));
  }

  // ---------------------------------------------------------------------
  // Validation

  datatype Result<T> = Ok(value: T) | Err(message: string)

  const ErrSliderIdRequired := "Slider ID is required."
  const ErrSliderNameRequired := "Slider name is required."
  const ErrSliderIdFormat := "Slider ID can only contain lowercase letters, numbers, and hyphens."
  const ErrSlideImageRequired := "Slide image is required."
  const ErrButtonUrl := "Button URL is not valid."

  /** PHP `implode($sep, $parts)`. */
  function Join(parts: seq<string>, sep: string): string {
    if parts == [] then ""
    else if |parts| == 1 then parts[0]
    else parts[0] + sep + Join(parts[1..], sep)
  }

  function SliderConfigErrors(c: SliderConfig): seq<string> {
    (if EmptyString(c.id) then [ErrSliderIdRequired] else [])
    + (if EmptyString(c.name) then [ErrSliderNameRequired] else [])
    + (if !EmptyString(c.id) && !MatchesSlugPattern(c.id) then [ErrSliderIdFormat] else [])
  }

  /** `validate_slider_config`: the configuration itself, or every problem
      found joined into one message. */
  function ValidateSliderConfig(c: SliderConfig): (r: Result<SliderConfig>)
    ensures r.Ok? <==> !EmptyString(c.id) && !EmptyString(c.name) && MatchesSlugPattern(c.id)
    ensures r.Ok? ==> r.value == c
  {
    var errors := SliderConfigErrors(c);
    if errors != [] then Err(Join(errors, " ")) else Ok(c)
  }

  /** The failure message for each way a configuration can fail. */
  lemma SliderConfigMessages(c: SliderConfig)
    ensures EmptyString(c.id) && EmptyString(c.name) ==>
      ValidateSliderConfig(c) == Err(ErrSliderIdRequired + " " + ErrSliderNameRequired)
    ensures EmptyString(c.id) && !EmptyString(c.name) ==>
      ValidateSliderConfig(c) == Err("Slider ID is required.")
    ensures !EmptyString(c.id) && EmptyString(c.name) && !MatchesSlugPattern(c.id) ==>
      ValidateSliderConfig(c) == Err(ErrSliderNameRequired + " " + ErrSliderIdFormat)
    ensures !EmptyString(c.id) && EmptyString(c.name) && MatchesSlugPattern(c.id) ==>
      ValidateSliderConfig(c) == Err("Slider name is required.")
    ensures !EmptyString(c.id) && !EmptyString(c.name) && !MatchesSlugPattern(c.id) ==>
      ValidateSliderConfig(c) == Err("Slider ID can only contain lowercase letters, numbers, and hyphens.")
  {
    if EmptyString(c.id) && EmptyString(c.name) {
      assert SliderConfigErrors(c) == [ErrSliderIdRequired, ErrSliderNameRequired];
      JoinTwo(ErrSliderIdRequired, ErrSliderNameRequired);
    }
    if !EmptyString(c.id) && EmptyString(c.name) && !MatchesSlugPattern(c.id) {
      assert SliderConfigErrors(c) == [ErrSliderNameRequired, ErrSliderIdFormat];
      JoinTwo(ErrSliderNameRequired, ErrSliderIdFormat);
    }
  }

  lemma JoinTwo(a: string, b: string)
    ensures Join([a, b], " ") == a + " " + b
  {
    assert [a, b][1..] == [b];
  }

  /** A sanitised id is a key, so it passes the format check exactly when it
      is non-empty and has no underscore (which sanitize_key keeps). */
  lemma {:induction false} SanitizedIdFormat(h: Helpers, config: Bag)
    ensures var c := SanitizeSliderConfig(h, config);
      MatchesSlugPattern(c.id) <==> |c.id| >= 1 && '_' !in c.id
  {
    var c := SanitizeSliderConfig(h, config);
    var s := c.id;
    if |s| >= 1 && '_' !in s {
      forall i | 0 <= i < |s| ensures IsSlugChar(s[i]) {
        assert IsKeyChar(s[i]);
        assert s[i] != '_';
      }
    }
    if MatchesSlugPattern(s) {
      assert s[|s| - 1] != '\n' by { assert IsKeyChar(s[|s| - 1]); }
      assert AllSlugChars(s);
    }
  }

  function SlideDataErrors(h: Helpers, d: SlideData): seq<string> {
    (if EmptyString(d.sliderId) then [ErrSliderIdRequired] else [])
    + (if d.imageId == 0 then [ErrSlideImageRequired] else [])
    + (if d.buttonEnabled && !EmptyString(d.buttonUrl) && !h.validUrl(d.buttonUrl) then [ErrButtonUrl] else [])
  }

  /** `validate_slide_data`: a slider id and an image are required, and the
      button URL must be a valid URL only when the button is on and the URL set. */
  function ValidateSlideData(h: Helpers, d: SlideData): (r: Result<SlideData>)
    ensures r.Ok? <==>
      && !EmptyString(d.sliderId)
      && d.imageId != 0
      && (d.buttonEnabled && !EmptyString(d.buttonUrl) ==> h.validUrl(d.buttonUrl))
    ensures r.Ok? ==> r.value == d
  {
    var errors := SlideDataErrors(h, d);
    if errors != [] then Err(Join(errors, " ")) else Ok(d)
  }

  /** An enabled button with an invalid URL is the only failure of an
      otherwise complete slide, and its message says so; with the button off
      the same URL is accepted. */
  lemma InvalidButtonUrl(h: Helpers, d: SlideData)
    requires !EmptyString(d.sliderId) && d.imageId != 0
    requires !EmptyString(d.buttonUrl) && !h.validUrl(d.buttonUrl)
    ensures d.buttonEnabled ==> ValidateSlideData(h, d) == Err(ErrButtonUrl)
    ensures !d.buttonEnabled ==> ValidateSlideData(h, d) == Ok(d)
  {
  }

  // ---------------------------------------------------------------------
  // Output escaping

  datatype EscapedSlide = EscapedSlide(
    id: nat,
    sliderId: string,
    order: nat,
    imageId: nat,
    imageUrl: string,
    imageAlt: string,
    captionEnabled: bool,
    captionTitle: string,
    captionText: string,
    buttonEnabled: bool,
    buttonText: string,
    buttonUrl: string,
    buttonStyle: string,
    buttonNewTab: bool,
    active: bool)

  /** Every text field of an escaped slide is free of characters that could
      open a tag or leave an attribute value. */
  predicate InertText(e: EscapedSlide) {
    && NoSpecials(e.sliderId) && NoSpecials(e.imageUrl) && NoSpecials(e.imageAlt)
    && NoSpecials(e.captionTitle) && NoSpecials(e.captionText) && NoSpecials(e.buttonText)
    && NoSpecials(e.buttonUrl) && NoSpecials(e.buttonStyle)
  }

  /** An optional text field escaped with `esc_html`/`esc_attr`, "" when absent. */
  function EscapedText(slide: Bag, k: Key): (r: string)
    ensures NoSpecials(r)
  {
    if IsSet(slide, k) then EscHtml(StrVal(slide[k])) else ""
  }

  /** An optional URL field escaped with `esc_url`, "" when absent. */
  function EscapedUrl(h: Helpers, slide: Bag, k: Key): (r: string)
    ensures SafeUrlEscaping(h) ==> NoSpecials(r)
  {
    if IsSet(slide, k) then EscUrl(h, StrVal(slide[k])) else ""
  }

  /** An optional integer field through `absint`, 0 when absent. */
  function AbsIntOr0(slide: Bag, k: Key): nat {
    if IsSet(slide, k) then AbsInt(slide[k]) else 0
  }

  /** `escape_slide_output`: the full fifteen-field record, each field escaped
      for the context it is printed in, with defaults for absent fields. */
  function EscapeSlideOutput(h: Helpers, slide: Bag): (e: EscapedSlide)
    ensures SafeUrlEscaping(h) ==> InertText(e)
    ensures !IsSet(slide, ButtonStyle) ==> e.buttonStyle == "btn-primary"
    ensures !IsSet(slide, Active) ==> e.active
    ensures !IsSet(slide, CaptionEnabled) ==> !e.captionEnabled
    ensures !IsSet(slide, ButtonEnabled) ==> !e.buttonEnabled
  {
    var style := if IsSet(slide, ButtonStyle) then EscAttr(StrVal(slide[ButtonStyle])) else "btn-primary";
    assert NoSpecials(style);
    EscapedSlide(
      id := AbsIntOr0(slide, Id),
      sliderId := EscapedText(slide, SliderId),
      order := AbsIntOr0(slide, SlideOrder),
      imageId := AbsIntOr0(slide, ImageId),
      imageUrl := EscapedUrl(h, slide, ImageUrl),
      imageAlt := EscapedText(slide, ImageAlt),
      captionEnabled := FlagOr(slide, CaptionEnabled, false),
      captionTitle := EscapedText(slide, CaptionTitle),
      captionText := EscapedText(slide, CaptionText),
      buttonEnabled := FlagOr(slide, ButtonEnabled, false),
      buttonText := EscapedText(slide, ButtonText),
      buttonUrl := EscapedUrl(h, slide, ButtonUrl),
      buttonStyle := style,
      buttonNewTab := FlagOr(slide, ButtonNewTab, false),
      active := FlagOr(slide, Active, true))
  }
}
