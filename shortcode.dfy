/**
 * The `[cta_slider id="..."]` shortcode (class CTA_Slider_Shortcode): it
 * looks the slider up, and renders a Bootstrap 5 carousel of the slider's
 * active slides.
 *
 * The markup is built as a small tree of HTML nodes whose serialisation is
 * byte for byte the string the plugin concatenates; properties of the page
 * (one active item, one indicator per slide, every user-supplied text
 * escaped) are proved on the tree.
 */
module Shortcode {
  import opened Php
  import opened Security
  import opened Database

  type Attr = (string, string)

  datatype Node =
    | Element(tag: string, attrs: seq<Attr>, children: seq<Node>)
    | Void(tag: string, attrs: seq<Attr>)
    | Text(s: string)
    | LineText(s: string)

  /** ` name="value"` for each attribute, in order. */
  function AttrsHtml(attrs: seq<Attr>): string {
    if attrs == [] then ""
    else " " + attrs[0].0 + "=\"" + attrs[0].1 + "\"" + AttrsHtml(attrs[1..])
  }

  function Html(n: Node): string
    decreases n, 1
  {
    match n
    case Element(tag, attrs, children) => "<" + tag + AttrsHtml(attrs) + ">" + HtmlSeq(children) + "</" + tag + ">"
    case Void(tag, attrs) => "<" + tag + AttrsHtml(attrs) + ">"
    case Text(s) => s
    case LineText(s) => Nl2br(s)
  }

  function HtmlSeq(ns: seq<Node>): string
    decreases ns, 0
  {
    if ns == [] then "" else Html(ns[0]) + HtmlSeq(ns[1..])
  }

  /** The value of the first attribute with the given name. */
  function Lookup(attrs: seq<Attr>, name: string): Option<string> {
    if attrs == [] then None
    else if attrs[0].0 == name then Some(attrs[0].1)
    else Lookup(attrs[1..], name)
  }

  /** No text or attribute value in the tree can open a tag or end an
      attribute value. */
  predicate Inert(n: Node)
    decreases n, 1
  {
    match n
    case Element(_, attrs, children) => InertAttrs(attrs) && InertSeq(children)
    case Void(_, attrs) => InertAttrs(attrs)
    case Text(s) => NoSpecials(s)
    case LineText(s) => NoSpecials(s)
  }

  predicate InertSeq(ns: seq<Node>)
    decreases ns, 0
  {
    forall i :: 0 <= i < |ns| ==> Inert(ns[i])
  }

  predicate InertAttrs(attrs: seq<Attr>) {
    forall i :: 0 <= i < |attrs| ==> NoSpecials(attrs[i].1)
  }

  // ---------------------------------------------------------------------
  // Carousel options

  /** `get_carousel_data_attributes`: Bootstrap's options, written only
      where they differ from Bootstrap's defaults (except ride and pause). */
  function DataAttributes(c: SliderConfig): (r: seq<Attr>)
    ensures forall i, j :: 0 <= i < j < |r| ==> r[i].0 != r[j].0
  {
    OptionNamesDistinct();
    (if c.autoplay
     then [(Ride, "carousel"), (Interval, NatToString(Abs(c.interval)))]
     else [(Ride, "false")])
    + (if !c.keyboard then [(Keyboard, "false")] else [])
    + (if !c.touch then [(Touch, "false")] else [])
    + [(Pause, if c.pauseHover then "hover" else "false")]
    + (if !c.wrap then [(Wrap, "false")] else [])
  }

  /** How Bootstrap reads a boolean option from the element: absent means
      the default, "false" means off. */
  function BootstrapFlag(attrs: seq<Attr>, name: string, default: bool): bool {
    match Lookup(attrs, name)
    case None => default
    case Some(v) => v != "false"
  }

  /** The carousel Bootstrap builds behaves as configured: it cycles with the
      configured interval exactly when autoplay is on, and keyboard, touch,
      pause-on-hover and wrapping follow their settings. */
  lemma DataAttributesConfigureBootstrap(c: SliderConfig)
    ensures var a := DataAttributes(c);
      && Lookup(a, Ride) == Some(if c.autoplay then "carousel" else "false")
      && Lookup(a, Interval) == (if c.autoplay then Some(NatToString(Abs(c.interval))) else None)
      && BootstrapFlag(a, Keyboard, true) == c.keyboard
      && BootstrapFlag(a, Touch, true) == c.touch
      && Lookup(a, Pause) == Some(if c.pauseHover then "hover" else "false")
      && BootstrapFlag(a, Wrap, true) == c.wrap
  {
    var a := DataAttributes(c);
    LookupNames(a, c);
  }

  lemma {:induction false} LookupAppend(a: seq<Attr>, b: seq<Attr>, name: string)
    ensures Lookup(a + b, name) == if Lookup(a, name).Some? then Lookup(a, name) else Lookup(b, name)
  {
    if a != [] {
      assert (a + b)[1..] == a[1..] + b;
      LookupAppend(a[1..], b, name);
    } else {
      assert a + b == b;
    }
  }

  /** The option names `get_carousel_data_attributes` writes. */
  const Ride := "data-bs-ride"
  const Interval := "data-bs-interval"
  const Keyboard := "data-bs-keyboard"
  const Touch := "data-bs-touch"
  const Pause := "data-bs-pause"
  const Wrap := "data-bs-wrap"

  lemma OptionNamesDistinct()
    ensures Ride != Interval && Ride != Keyboard && Ride != Touch && Ride != Pause && Ride != Wrap
    ensures Interval != Keyboard && Interval != Touch && Interval != Pause && Interval != Wrap
    ensures Keyboard != Touch && Keyboard != Pause && Keyboard != Wrap
    ensures Touch != Pause && Touch != Wrap && Pause != Wrap
  {
    assert Ride[8] != Interval[8] && Ride[8] != Keyboard[8] && Ride[8] != Touch[8];
    assert Ride[8] != Pause[8] && Ride[8] != Wrap[8];
    assert Interval[8] != Keyboard[8] && Interval[8] != Touch[8] && Interval[8] != Pause[8] && Interval[8] != Wrap[8];
    assert Keyboard[8] != Touch[8] && Keyboard[8] != Pause[8] && Keyboard[8] != Wrap[8];
    assert Touch[8] != Pause[8] && Touch[8] != Wrap[8] && Pause[8] != Wrap[8];
  }

  lemma {:induction false} LookupAbsent(a: seq<Attr>, name: string)
    requires forall i :: 0 <= i < |a| ==> a[i].0 != name
    ensures Lookup(a, name) == None
  {
    if a != [] {
      LookupAbsent(a[1..], name);
    }
  }

  lemma {:induction false} LookupAt(a: seq<Attr>, name: string, j: nat)
    requires j < |a| && a[j].0 == name
    requires forall i :: 0 <= i < j ==> a[i].0 != name
    ensures Lookup(a, name) == Some(a[j].1)
  {
    if j > 0 {
      LookupAt(a[1..], name, j - 1);
    }
  }

  lemma LookupSegments(r: seq<Attr>, k: seq<Attr>, t: seq<Attr>, p: seq<Attr>, w: seq<Attr>, name: string)
    ensures Lookup(r + k + t + p + w, name) ==
      if Lookup(r, name).Some? then Lookup(r, name)
      else if Lookup(k, name).Some? then Lookup(k, name)
      else if Lookup(t, name).Some? then Lookup(t, name)
      else if Lookup(p, name).Some? then Lookup(p, name)
      else Lookup(w, name)
  {
    LookupAppend(r + k + t + p, w, name);
    LookupAppend(r + k + t, p, name);
    LookupAppend(r + k, t, name);
    LookupAppend(r, k, name);
  }

  lemma LookupNames(a: seq<Attr>, c: SliderConfig)
    requires a == DataAttributes(c)
    ensures Lookup(a, Ride) == Some(if c.autoplay then "carousel" else "false")
    ensures Lookup(a, Interval) == (if c.autoplay then Some(NatToString(Abs(c.interval))) else None)
    ensures BootstrapFlag(a, Keyboard, true) == c.keyboard
    ensures BootstrapFlag(a, Touch, true) == c.touch
    ensures Lookup(a, Pause) == Some(if c.pauseHover then "hover" else "false")
    ensures BootstrapFlag(a, Wrap, true) == c.wrap
  {
    LookupRidePause(c);
    LookupOffFlags(c);
  }

  lemma LookupRidePause(c: SliderConfig)
    ensures var a := DataAttributes(c);
      && Lookup(a, Ride) == Some(if c.autoplay then "carousel" else "false")
      && Lookup(a, Interval) == (if c.autoplay then Some(NatToString(Abs(c.interval))) else None)
      && Lookup(a, Pause) == Some(if c.pauseHover then "hover" else "false")
  {
    OptionNamesDistinct();
    var r := if c.autoplay then [(Ride, "carousel"), (Interval, NatToString(Abs(c.interval)))] else [(Ride, "false")];
    var k: seq<Attr> := if !c.keyboard then [(Keyboard, "false")] else [];
    var t: seq<Attr> := if !c.touch then [(Touch, "false")] else [];
    var p := [(Pause, if c.pauseHover then "hover" else "false")];
    var w: seq<Attr> := if !c.wrap then [(Wrap, "false")] else [];
    assert DataAttributes(c) == r + k + t + p + w;
    LookupSegments(r, k, t, p, w, Ride);
    LookupSegments(r, k, t, p, w, Interval);
    LookupSegments(r, k, t, p, w, Pause);
    if c.autoplay {
      assert r[1..] == [(Interval, NatToString(Abs(c.interval)))];
      assert Lookup(r, Interval) == Some(NatToString(Abs(c.interval)));
    } else {
      assert Lookup(r, Interval) == None;
      LookupAbsent(k, Interval);
      LookupAbsent(t, Interval);
      LookupAbsent(p, Interval);
      LookupAbsent(w, Interval);
    }
    LookupAbsent(r, Pause);
    LookupAbsent(k, Pause);
    LookupAbsent(t, Pause);
  }

  lemma LookupOffFlags(c: SliderConfig)
    ensures var a := DataAttributes(c);
      && BootstrapFlag(a, Keyboard, true) == c.keyboard
      && BootstrapFlag(a, Touch, true) == c.touch
      && BootstrapFlag(a, Wrap, true) == c.wrap
  {
    OptionNamesDistinct();
    var r := if c.autoplay then [(Ride, "carousel"), (Interval, NatToString(Abs(c.interval)))] else [(Ride, "false")];
    var k: seq<Attr> := if !c.keyboard then [(Keyboard, "false")] else [];
    var t: seq<Attr> := if !c.touch then [(Touch, "false")] else [];
    var p := [(Pause, if c.pauseHover then "hover" else "false")];
    var w: seq<Attr> := if !c.wrap then [(Wrap, "false")] else [];
    assert DataAttributes(c) == r + k + t + p + w;
    LookupSegments(r, k, t, p, w, Keyboard);
    LookupSegments(r, k, t, p, w, Touch);
    LookupSegments(r, k, t, p, w, Wrap);
    LookupAbsent(r, Keyboard);
    LookupAbsent(r, Touch);
    LookupAbsent(r, Wrap);
    assert Lookup(k, Touch) == None && Lookup(k, Wrap) == None;
    assert Lookup(t, Wrap) == None;
    assert Lookup(p, Wrap) == None;
  }

  // ---------------------------------------------------------------------
  // Indicators, slides and controls

  /** The attributes of indicator button `i`. */
  function IndicatorAttrs(uid: string, i: nat): seq<Attr> {
    [("type", "button"), ("data-bs-target", "#" + EscAttr(uid)), ("data-bs-slide-to", NatToString(i))]
    + (if i == 0 then [("class", "active"), ("aria-current", "true")] else [])
    + [("aria-label", EscAttr("Slide " + NatToString(i + 1)))]
  }

  /** `render_indicators`: one button per slide. */
  function Indicators(n: nat, uid: string): (r: Node)
    ensures r.Element? && |r.children| == n
    ensures forall i :: 0 <= i < n ==>
      (r.children[i].Element? &&
       var a := r.children[i].attrs;
       && Lookup(a, "data-bs-target") == Some("#" + EscAttr(uid))
       && Lookup(a, "data-bs-slide-to") == Some(NatToString(i))
       && (Lookup(a, "class") == Some("active") <==> i == 0))
  {
    var buttons := seq(n, i requires 0 <= i < n => Element("button", IndicatorAttrs(uid, i), []));
    forall i | 0 <= i < n
      ensures var a := buttons[i].attrs;
        && Lookup(a, "data-bs-target") == Some("#" + EscAttr(uid))
        && Lookup(a, "data-bs-slide-to") == Some(NatToString(i))
        && (Lookup(a, "class") == Some("active") <==> i == 0)
    {
      IndicatorLookups(uid, i);
    }
    Element("div", [("class", "carousel-indicators")], buttons)
  }

  lemma IndicatorLookups(uid: string, i: nat)
    ensures var a := IndicatorAttrs(uid, i);
      && Lookup(a, "data-bs-target") == Some("#" + EscAttr(uid))
      && Lookup(a, "data-bs-slide-to") == Some(NatToString(i))
      && (Lookup(a, "class") == Some("active") <==> i == 0)
  {
    var a := IndicatorAttrs(uid, i);
    assert a[0].0 == "type" && a[1].0 == "data-bs-target" && a[2].0 == "data-bs-slide-to";
    assert |"data-bs-target"| != |"data-bs-slide-to"|;
    LookupAt(a, "data-bs-target", 1);
    LookupAt(a, "data-bs-slide-to", 2);
    if i == 0 {
      assert a[3] == ("class", "active");
      LookupAt(a, "class", 3);
    } else {
      assert |a| == 4 && a[3].0 == "aria-label";
      LookupAbsent(a, "class");
    }
  }

  /** Whether `render_slide_html` prints the caption block. */
  predicate HasCaption(e: EscapedSlide) {
    e.captionEnabled && (!EmptyString(e.captionTitle) || !EmptyString(e.captionText) || e.buttonEnabled)
  }

  /** Whether the caption block holds the call-to-action link. */
  predicate HasButton(e: EscapedSlide) {
    e.buttonEnabled && !EmptyString(e.buttonText) && !EmptyString(e.buttonUrl)
  }

  function CtaLink(e: EscapedSlide): Node {
    Element("a",
      [("href", e.buttonUrl), ("class", "btn " + e.buttonStyle)]
      + (if e.buttonNewTab then [("target", "_blank"), ("rel", "noopener noreferrer")] else []),
      [Text(e.buttonText)])
  }

  function TitleNodes(e: EscapedSlide): seq<Node> {
    if !EmptyString(e.captionTitle) then [Element("h5", [], [Text(e.captionTitle)])] else []
  }

  function TextNodes(e: EscapedSlide): seq<Node> {
    if !EmptyString(e.captionText) then [Element("p", [], [LineText(e.captionText)])] else []
  }

  function LinkNodes(e: EscapedSlide): seq<Node> {
    if HasButton(e) then [CtaLink(e)] else []
  }

  function Caption(e: EscapedSlide): Node {
    Element("div", [("class", "carousel-caption d-none d-md-block")], TitleNodes(e) + TextNodes(e) + LinkNodes(e))
  }

  function ItemClass(isActive: bool): string {
    if isActive then "carousel-item active" else "carousel-item"
  }

  /** `render_slide_html` of an already escaped slide. */
  function SlideItemOf(e: EscapedSlide, isActive: bool): Node {
    Element("div", [("class", ItemClass(isActive))],
      [Void("img", [("src", e.imageUrl), ("class", "d-block w-100"), ("alt", e.imageAlt)])]
      + (if HasCaption(e) then [Caption(e)] else []))
  }

  /** `render_slide_html`: the slide row is escaped first. */
  function SlideItem(h: Helpers, slide: Bag, isActive: bool): (r: Node)
    ensures var e := EscapeSlideOutput(h, slide);
      && r.Element? && r.tag == "div"
      && Lookup(r.attrs, "class") == Some(if isActive then "carousel-item active" else "carousel-item")
      && |r.children| == (if HasCaption(e) then 2 else 1)
      && r.children[0].Void? && r.children[0].tag == "img"
      && Lookup(r.children[0].attrs, "src") == Some(e.imageUrl)
  {
    SlideItemOf(EscapeSlideOutput(h, slide), isActive)
  }

  /** The caption block appears exactly when captions are on and there is a
      title, a text or an enabled button (which suffices on its own); the
      link appears exactly when the button is on with a text and a URL, and
      opens a new tab, safely, exactly when asked. */
  lemma SlideStructure(e: EscapedSlide, isActive: bool)
    ensures var item := SlideItemOf(e, isActive);
      && |item.children| == (if HasCaption(e) then 2 else 1)
      && (HasCaption(e) ==> item.children[1] == Caption(e))
      && (e.captionEnabled && e.buttonEnabled ==> HasCaption(e))
      && ((exists i :: 0 <= i < |Caption(e).children| && Caption(e).children[i] == CtaLink(e)) <==> HasButton(e))
  {
    var cap := Caption(e);
    if HasButton(e) {
      assert cap.children[|cap.children| - 1] == CtaLink(e);
    } else {
      forall i | 0 <= i < |cap.children| ensures cap.children[i] != CtaLink(e) {
        assert cap.children[i].tag != "a";
      }
    }
  }

  /** The call-to-action link goes to the button URL, styled as configured,
      and only a new-tab link carries `target` and `rel`. */
  lemma CtaLinkAttributes(e: EscapedSlide)
    ensures var a := CtaLink(e).attrs;
      && Lookup(a, "href") == Some(e.buttonUrl)
      && Lookup(a, "class") == Some("btn " + e.buttonStyle)
      && Lookup(a, "target") == (if e.buttonNewTab then Some("_blank") else None)
      && Lookup(a, "rel") == (if e.buttonNewTab then Some("noopener noreferrer") else None)
  {
    var a := CtaLink(e).attrs;
    LookupAt(a, "href", 0);
    LookupAt(a, "class", 1);
    if e.buttonNewTab {
      LookupAt(a, "target", 2);
      LookupAt(a, "rel", 3);
    } else {
      LookupAbsent(a, "target");
      LookupAbsent(a, "rel");
    }
  }

  /** The `carousel-inner` children: the first slide is the active one. */
  function SlideItems(h: Helpers, rows: seq<Bag>): (r: seq<Node>)
    ensures |r| == |rows|
    ensures forall i :: 0 <= i < |r| ==>
      (r[i].Element? && (Lookup(r[i].attrs, "class") == Some("carousel-item active") <==> i == 0))
  {
    seq(|rows|, i requires 0 <= i < |rows| => SlideItem(h, rows[i], i == 0))
  }

  function ControlButton(uid: string, dir: string, hidden: string): Node {
    Element("button",
      [("class", "carousel-control-" + dir), ("type", "button"), ("data-bs-target", "#" + EscAttr(uid)), ("data-bs-slide", dir)],
      [Element("span", [("class", "carousel-control-" + dir + "-icon"), ("aria-hidden", "true")], []),
       Element("span", [("class", "visually-hidden")], [Text(hidden)])])
  }

  /** `render_controls`: the previous and next buttons. */
  function Controls(uid: string): (r: seq<Node>)
    ensures |r| == 2
    ensures forall i :: 0 <= i < 2 ==>
      (r[i].Element? && Lookup(r[i].attrs, "data-bs-target") == Some("#" + EscAttr(uid)))
    ensures Lookup(r[0].attrs, "data-bs-slide") == Some("prev") && Lookup(r[1].attrs, "data-bs-slide") == Some("next")
  {
    ControlLookups(uid, "prev", "Previous");
    ControlLookups(uid, "next", "Next");
    [ControlButton(uid, "prev", "Previous"), ControlButton(uid, "next", "Next")]
  }

  lemma ControlLookups(uid: string, dir: string, hidden: string)
    ensures Lookup(ControlButton(uid, dir, hidden).attrs, "data-bs-target") == Some("#" + EscAttr(uid))
    ensures Lookup(ControlButton(uid, dir, hidden).attrs, "data-bs-slide") == Some(dir)
  {
    var a := ControlButton(uid, dir, hidden).attrs;
    assert a[0].0 == "class" && a[1].0 == "type" && a[2].0 == "data-bs-target" && a[3].0 == "data-bs-slide";
    assert |"data-bs-target"| != |"data-bs-slide"|;
    LookupAt(a, "data-bs-target", 2);
    LookupAt(a, "data-bs-slide", 3);
  }

  // ---------------------------------------------------------------------
  // The carousel

  function CarouselClass(c: SliderConfig): string {
    if c.transition == "crossfade" then "carousel slide cta-slider-carousel carousel-fade"
    else "carousel slide cta-slider-carousel"
  }

  /** The `<div class="carousel ...">` element `generate_carousel_html` builds. */
  function CarouselRoot(h: Helpers, c: SliderConfig, rows: seq<Bag>, uid: string): Node {
    Element("div",
      [("id", EscAttr(uid)), ("class", CarouselClass(c))] + DataAttributes(c),
      (if c.indicators then [Indicators(|rows|, uid)] else [])
      + [Element("div", [("class", "carousel-inner")], SlideItems(h, rows))]
      + (if c.controls then Controls(uid) else []))
  }

  /** The root's classes end in `carousel-fade` exactly for the crossfade
      transition. */
  lemma CarouselFadeClass(h: Helpers, c: SliderConfig, rows: seq<Bag>, uid: string)
    ensures var cls := CarouselClass(c);
      && Lookup(CarouselRoot(h, c, rows, uid).attrs, "class") == Some(cls)
      && (|cls| >= 13 && cls[|cls| - 13..] == "carousel-fade" <==> c.transition == "crossfade")
  {
    var root := CarouselRoot(h, c, rows, uid);
    assert root.attrs[0].0 == "id" && root.attrs[1].0 == "class";
    assert "id" != "class" by {
      assert "id"[0] != "class"[0];
    }
    LookupAt(root.attrs, "class", 1);
    CarouselClassEndsInFade(c);
  }

  lemma CarouselClassEndsInFade(c: SliderConfig)
    ensures var cls := CarouselClass(c);
      |cls| >= 13 && cls[|cls| - 13..] == "carousel-fade" <==> c.transition == "crossfade"
  {
    var plain := "carousel slide cta-slider-carousel";
    assert plain[|plain| - 13..] != "carousel-fade" by {
      assert plain[|plain| - 13] == 'i';
    }
  }

  /** `generate_carousel_html`: the custom styles, then the carousel. */
  function GenerateCarouselHtml(h: Helpers, c: SliderConfig, rows: seq<Bag>, uid: string): (r: string)
    ensures var markup := Html(CarouselRoot(h, c, rows, uid));
      && |r| >= |markup| && r[|r| - |markup|..] == markup
      && (r == markup <==> c.imageHeight == "auto" && c.imageFit == "cover")
      && (r != markup ==> |r| >= 7 && r[..7] == "<style>")
  {
    var styles, markup := CustomStyles(c, uid), Html(CarouselRoot(h, c, rows, uid));
    StylesThenMarkup(styles, markup);
    styles + markup
  }

  lemma StylesThenMarkup(styles: string, markup: string)
    ensures (styles + markup)[|styles|..] == markup
    ensures |styles| >= 7 ==> (styles + markup)[..7] == styles[..7]
  {
  }

  /** The carousel is wired together: its indicators (when shown) are one
      per slide, each pointing at the carousel and at its own slide, the
      first slide and the first indicator are the only active ones, and the
      controls (when shown) point at the carousel. */
  lemma CarouselWiring(h: Helpers, c: SliderConfig, rows: seq<Bag>, uid: string)
    ensures var root := CarouselRoot(h, c, rows, uid);
      var target := "#" + EscAttr(uid);
      var ind := if c.indicators then 1 else 0;
      && Lookup(root.attrs, "id") == Some(EscAttr(uid))
      && |root.children| == ind + 1 + (if c.controls then 2 else 0)
      && root.children[ind].Element?
      && |root.children[ind].children| == |rows|
      && (forall i :: 0 <= i < |rows| ==>
            var item := root.children[ind].children[i];
            item.Element? && (Lookup(item.attrs, "class") == Some("carousel-item active") <==> i == 0))
      && (c.indicators ==>
            root.children[0].Element? && |root.children[0].children| == |rows|
            && forall i :: 0 <= i < |rows| ==>
                 var b := root.children[0].children[i];
                 b.Element?
                 && Lookup(b.attrs, "data-bs-target") == Some(target)
                 && Lookup(b.attrs, "data-bs-slide-to") == Some(NatToString(i))
                 && (Lookup(b.attrs, "class") == Some("active") <==> i == 0))
      && (c.controls ==> forall j :: ind + 1 <= j < |root.children| ==>
            root.children[j].Element? && Lookup(root.children[j].attrs, "data-bs-target") == Some(target))
  {
    var root := CarouselRoot(h, c, rows, uid);
    assert Lookup(root.attrs, "id") == Some(EscAttr(uid));
    var ind := if c.indicators then 1 else 0;
    var inner := Element("div", [("class", "carousel-inner")], SlideItems(h, rows));
    var pre: seq<Node> := if c.indicators then [Indicators(|rows|, uid)] else [];
    var post: seq<Node> := if c.controls then Controls(uid) else [];
    assert root.children == pre + [inner] + post;
    assert root.children[ind] == inner;
    if c.controls {
      forall j | ind + 1 <= j < |root.children|
        ensures root.children[j] == Controls(uid)[j - ind - 1]
      {
      }
    }
  }

  // ---------------------------------------------------------------------
  // Custom styles

  /** `min(300, absint($image_height) / 2)` as PHP prints it: an odd height
      halves to a float ending in ".5". */
  function HalfHeightText(n: nat): string {
    if n >= 600 then "300" else NatToString(n / 2) + (if n % 2 == 1 then ".5" else "")
  }

  /** The printed small-screen height is the number min(300, n / 2). */
  lemma HalfHeightIsCappedHalf(n: nat)
    ensures NumericValue(HalfHeightText(n)) == Some(if n >= 600 then 300.0 else n as real / 2.0)
  {
    if n >= 600 {
      NumericThreeHundred();
    } else if n % 2 == 0 {
      HalfOfEven(n);
    } else {
      HalfOfOdd(n / 2);
      assert HalfHeightText(n) == NatToString(n / 2) + ".5";
      assert n == 2 * (n / 2) + 1;
    }
  }

  lemma HalfOfEven(n: nat)
    requires n < 600 && n % 2 == 0
    ensures NumericValue(HalfHeightText(n)) == Some(n as real / 2.0)
  {
    HalfTextOfEven(n);
    NumericValueOfNat(n / 2);
    EvenHalfAsReal(n);
  }

  lemma HalfTextOfEven(n: nat)
    requires n < 600 && n % 2 == 0
    ensures HalfHeightText(n) == NatToString(n / 2)
  {
  }

  lemma EvenHalfAsReal(n: nat)
    requires n % 2 == 0
    ensures (n / 2) as real == n as real / 2.0
  {
    assert n == 2 * (n / 2);
  }

  /** PHP's rendering of a non-negative integer reads back as that number. */
  lemma NumericValueOfNat(k: nat)
    ensures NumericValue(NatToString(k)) == Some(k as real)
  {
    NatToStringValue(k);
    NumericValueOfDigits(NatToString(k));
  }

  lemma NumericThreeHundred()
    ensures NumericValue("300") == Some(300.0)
  {
    assert NatToString(300) == "300" by {
      assert NatToString(30) == NatToString(3) + [DigitChar(0)];
    }
    NatToStringValue(300);
    NumericValueOfDigits(NatToString(300));
  }

  lemma HalfOfOdd(k: nat)
    ensures NumericValue(NatToString(k) + ".5") == Some(k as real + 0.5)
  {
    var d := NatToString(k);
    var s := d + ".5";
    assert UnsignedNumeric(s) == Some(k as real + 0.5) by {
      assert s == d + "." + "5";
      UnsignedNumericWithFraction(d, "5");
      HalfFraction();
      NatToStringValue(k);
    }
    assert IsDigit(s[0]) by {
      assert s[0] == d[0];
    }
    NumericValueUnsigned(s);
  }

  lemma HalfFraction()
    ensures FractionValue("5") == 0.5
  {
    assert DigitsValue("5") == 5;
  }

  /** The selector of this carousel's images. */
  function ImageSelector(uid: string): string {
    "#" + EscAttr(uid) + " .carousel-item img {"
  }

  /** `absint($image_height)` */
  function HeightPixels(height: string): nat {
    AbsInt(Str(height))
  }

  function HeightDecl(height: string): string {
    if height != "auto" then "height: " + NatToString(HeightPixels(height)) + "px;" else ""
  }

  function FitDecl(fit: string): string {
    "object-fit: " + EscAttr(fit) + ";"
  }

  function MaxHeightDecl(pixels: string): string {
    "max-height: " + pixels + "px;"
  }

  function TabletDecls(height: string): string {
    if height != "auto" then "height: auto;" + MaxHeightDecl(NatToString(HeightPixels(height))) else ""
  }

  function PhoneDecl(height: string): string {
    if height != "auto" then MaxHeightDecl(HalfHeightText(HeightPixels(height))) else ""
  }

  /** The rule for wide screens: fixed height, fit, full width. */
  function DesktopRule(c: SliderConfig, uid: string): string {
    ImageSelector(uid) + HeightDecl(c.imageHeight) + FitDecl(c.imageFit) + "width: 100%;" + "}"
  }

  function TabletRule(c: SliderConfig, uid: string): string {
    "@media (max-width: 768px) {" + ImageSelector(uid) + TabletDecls(c.imageHeight) + "}" + "}"
  }

  function PhoneRule(c: SliderConfig, uid: string): string {
    "@media (max-width: 576px) {" + ImageSelector(uid) + PhoneDecl(c.imageHeight) + "}" + "}"
  }

  function StyleRules(c: SliderConfig, uid: string): string {
    DesktopRule(c, uid) + TabletRule(c, uid) + PhoneRule(c, uid)
  }

  /** `get_custom_styles`: nothing for the default look (automatic height,
      `cover` fit), otherwise a style block sizing this carousel's images. */
  function CustomStyles(c: SliderConfig, uid: string): (r: string)
    ensures r == "" <==> c.imageHeight == "auto" && c.imageFit == "cover"
    ensures r != "" ==> |r| >= 15 && r[..7] == "<style>" && r[|r| - 8..] == "</style>"
  {
    if c.imageHeight == "auto" && c.imageFit == "cover" then ""
    else
      var r := "<style>" + StyleRules(c, uid) + "</style>";
      assert r[..7] == "<style>";
      assert r[|r| - 8..] == "</style>";
      r
  }

  /** A whitelisted fit prints as itself. */
  lemma FitNamesNeedNoEscaping(fit: string)
    requires fit in ImageFits
    ensures EscAttr(fit) == fit
  {
    assert NoSpecials("cover") && '&' !in "cover";
    assert NoSpecials("contain") && '&' !in "contain";
    assert NoSpecials("none") && '&' !in "none";
  }

  /** The style block is three rules in order.  The wide-screen rule sets
      the fixed height (for a height other than "auto") and then the
      configured fit.  The 768px rule swaps the fixed height for a
      `max-height` of the same value.  The 576px rule caps the height at
      `min(300, height / 2)`.  For "auto" neither media rule declares
      anything. */
  lemma StyleDeclarations(c: SliderConfig, uid: string)
    requires c.imageFit in ImageFits
    requires c.imageHeight != "auto" || c.imageFit != "cover"
    ensures var sel := ImageSelector(uid);
      var fixed := c.imageHeight != "auto";
      var px := NatToString(HeightPixels(c.imageHeight));
      var half := HalfHeightText(HeightPixels(c.imageHeight));
      && CustomStyles(c, uid) == "<style>" + DesktopRule(c, uid) + TabletRule(c, uid) + PhoneRule(c, uid) + "</style>"
      && DesktopRule(c, uid) ==
           sel + (if fixed then "height: " + px + "px;" else "") + "object-fit: " + c.imageFit + ";width: 100%;}"
      && TabletRule(c, uid) ==
           "@media (max-width: 768px) {" + sel + (if fixed then "height: auto;max-height: " + px + "px;" else "") + "}}"
      && PhoneRule(c, uid) ==
           "@media (max-width: 576px) {" + sel + (if fixed then "max-height: " + half + "px;" else "") + "}}"
  {
    FitNamesNeedNoEscaping(c.imageFit);
    var d, t, p := DesktopRule(c, uid), TabletRule(c, uid), PhoneRule(c, uid);
    assert CustomStyles(c, uid) == "<style>" + (d + t + p) + "</style>";
    RegroupRules("<style>", d, t, p, "</style>");
    DesktopRuleText(c, uid);
    TabletRuleText(c, uid);
    PhoneRuleText(c, uid);
  }

  lemma RegroupRules(a: string, d: string, t: string, p: string, b: string)
    ensures a + (d + t + p) + b == a + d + t + p + b
  {
  }

  lemma DesktopRuleText(c: SliderConfig, uid: string)
    requires EscAttr(c.imageFit) == c.imageFit
    ensures DesktopRule(c, uid) ==
      ImageSelector(uid) + HeightDecl(c.imageHeight) + "object-fit: " + c.imageFit + ";width: 100%;}"
  {
    DesktopText(ImageSelector(uid), HeightDecl(c.imageHeight), c.imageFit);
  }

  lemma DesktopText(sel: string, hd: string, f: string)
    ensures sel + hd + ("object-fit: " + f + ";") + "width: 100%;" + "}" ==
      sel + hd + "object-fit: " + f + ";width: 100%;}"
  {
    assert ";" + "width: 100%;" + "}" == ";width: 100%;}";
  }

  lemma TabletRuleText(c: SliderConfig, uid: string)
    ensures TabletRule(c, uid) ==
      "@media (max-width: 768px) {" + ImageSelector(uid) + TabletDecls(c.imageHeight) + "}}"
    ensures c.imageHeight != "auto" ==>
      TabletDecls(c.imageHeight) == "height: auto;max-height: " + NatToString(HeightPixels(c.imageHeight)) + "px;"
  {
    ClosingBraces("@media (max-width: 768px) {" + ImageSelector(uid) + TabletDecls(c.imageHeight));
    TabletText(NatToString(HeightPixels(c.imageHeight)));
  }

  lemma ClosingBraces(a: string)
    ensures a + "}" + "}" == a + "}}"
  {
  }

  lemma TabletText(px: string)
    ensures "height: auto;" + ("max-height: " + px + "px;") == "height: auto;max-height: " + px + "px;"
  {
    assert "height: auto;" + "max-height: " == "height: auto;max-height: ";
  }

  lemma PhoneRuleText(c: SliderConfig, uid: string)
    ensures PhoneRule(c, uid) ==
      "@media (max-width: 576px) {" + ImageSelector(uid) + PhoneDecl(c.imageHeight) + "}}"
  {
    ClosingBraces("@media (max-width: 576px) {" + ImageSelector(uid) + PhoneDecl(c.imageHeight));
  }

  // ---------------------------------------------------------------------
  // Escaping

  lemma DigitsHaveNoSpecials(s: string)
    requires AllDigits(s)
    ensures NoSpecials(s)
  {
  }

  lemma InertSeqConcat(a: seq<Node>, b: seq<Node>)
    requires InertSeq(a) && InertSeq(b)
    ensures InertSeq(a + b)
  {
    forall i | 0 <= i < |a + b| ensures Inert((a + b)[i]) {
      if i >= |a| { assert (a + b)[i] == b[i - |a|]; }
    }
  }

  lemma InertAttrsConcat(a: seq<Attr>, b: seq<Attr>)
    requires InertAttrs(a) && InertAttrs(b)
    ensures InertAttrs(a + b)
  {
    forall i | 0 <= i < |a + b| ensures NoSpecials((a + b)[i].1) {
      if i >= |a| { assert (a + b)[i] == b[i - |a|]; }
    }
  }

  lemma CtaLinkInert(e: EscapedSlide)
    requires InertText(e)
    ensures Inert(CtaLink(e))
  {
    assert NoSpecials("btn ");
    NoSpecialsConcat("btn ", e.buttonStyle);
    var extra: seq<Attr> := if e.buttonNewTab then [("target", "_blank"), ("rel", "noopener noreferrer")] else [];
    assert NoSpecials("_blank") && NoSpecials("noopener noreferrer");
    assert InertAttrs(extra);
    InertAttrsConcat([("href", e.buttonUrl), ("class", "btn " + e.buttonStyle)], extra);
    assert Inert(Text(e.buttonText)) && InertSeq([Text(e.buttonText)]);
  }

  lemma TitleAndTextInert(e: EscapedSlide)
    requires InertText(e)
    ensures InertSeq(TitleNodes(e)) && InertSeq(TextNodes(e))
  {
    assert Inert(Text(e.captionTitle)) && InertSeq([Text(e.captionTitle)]);
    assert Inert(Element("h5", [], [Text(e.captionTitle)]));
    assert Inert(LineText(e.captionText)) && InertSeq([LineText(e.captionText)]);
    assert Inert(Element("p", [], [LineText(e.captionText)]));
  }

  lemma CaptionInert(e: EscapedSlide)
    requires InertText(e)
    ensures Inert(Caption(e))
  {
    TitleAndTextInert(e);
    CtaLinkInert(e);
    assert InertSeq(LinkNodes(e));
    InertSeqConcat(TitleNodes(e), TextNodes(e));
    InertSeqConcat(TitleNodes(e) + TextNodes(e), LinkNodes(e));
    assert NoSpecials("carousel-caption d-none d-md-block");
    assert InertAttrs(Caption(e).attrs);
  }

  lemma SlideItemInert(e: EscapedSlide, isActive: bool)
    requires InertText(e)
    ensures Inert(SlideItemOf(e, isActive))
  {
    CaptionInert(e);
    var item := SlideItemOf(e, isActive);
    assert InertSeq(item.children);
  }

  lemma IndicatorButtonInert(uid: string, i: nat)
    ensures InertAttrs(IndicatorAttrs(uid, i))
  {
    var head := [("type", "button"), ("data-bs-target", "#" + EscAttr(uid)), ("data-bs-slide-to", NatToString(i))];
    var mid: seq<Attr> := if i == 0 then [("class", "active"), ("aria-current", "true")] else [];
    var tail := [("aria-label", EscAttr("Slide " + NatToString(i + 1)))];
    IndicatorHeadInert(uid, i);
    assert InertAttrs(mid) by {
      assert NoSpecials("active") && NoSpecials("true");
    }
    InertAttrsConcat(head, mid);
    InertAttrsConcat(head + mid, tail);
  }

  lemma IndicatorHeadInert(uid: string, i: nat)
    ensures InertAttrs([("type", "button"), ("data-bs-target", "#" + EscAttr(uid)), ("data-bs-slide-to", NatToString(i))])
  {
    NoSpecialsConcat("#", EscAttr(uid));
    DigitsHaveNoSpecials(NatToString(i));
    assert NoSpecials("button");
  }

  lemma IndicatorsInert(n: nat, uid: string)
    ensures Inert(Indicators(n, uid))
  {
    var ind := Indicators(n, uid);
    forall i | 0 <= i < n ensures Inert(ind.children[i]) {
      IndicatorButtonInert(uid, i);
      assert ind.children[i] == Element("button", IndicatorAttrs(uid, i), []);
    }
    assert NoSpecials("carousel-indicators");
    assert InertAttrs(ind.attrs);
  }

  lemma ControlButtonInert(uid: string, dir: string, hidden: string)
    requires NoSpecials(dir) && NoSpecials(hidden)
    ensures Inert(ControlButton(uid, dir, hidden))
  {
    var b := ControlButton(uid, dir, hidden);
    ControlAttrsInert(uid, dir);
    ControlSpansInert(dir, hidden);
    assert InertSeq(b.children);
  }

  lemma ControlAttrsInert(uid: string, dir: string)
    requires NoSpecials(dir)
    ensures InertAttrs(ControlButton(uid, dir, "").attrs)
  {
    NoSpecialsConcat("#", EscAttr(uid));
    NoSpecialsConcat("carousel-control-", dir);
    assert NoSpecials("button");
  }

  lemma ControlSpansInert(dir: string, hidden: string)
    requires NoSpecials(dir) && NoSpecials(hidden)
    ensures Inert(Element("span", [("class", "carousel-control-" + dir + "-icon"), ("aria-hidden", "true")], []))
    ensures Inert(Element("span", [("class", "visually-hidden")], [Text(hidden)]))
  {
    NoSpecialsConcat("carousel-control-", dir);
    NoSpecialsConcat("carousel-control-" + dir, "-icon");
    assert NoSpecials("true") && NoSpecials("visually-hidden");
    assert Inert(Text(hidden)) && InertSeq([Text(hidden)]);
  }

  lemma ControlsInert(uid: string)
    ensures InertSeq(Controls(uid))
  {
    assert NoSpecials("prev") && NoSpecials("Previous") && NoSpecials("next") && NoSpecials("Next");
    ControlButtonInert(uid, "prev", "Previous");
    ControlButtonInert(uid, "next", "Next");
  }

  lemma RootAttrsInert(c: SliderConfig, uid: string)
    ensures InertAttrs([("id", EscAttr(uid)), ("class", CarouselClass(c))] + DataAttributes(c))
  {
    DataAttributesInert(c);
    CarouselClassInert(c);
    InertAttrsConcat([("id", EscAttr(uid)), ("class", CarouselClass(c))], DataAttributes(c));
  }

  lemma CarouselClassInert(c: SliderConfig)
    ensures NoSpecials(CarouselClass(c))
  {
    NoSpecialsConcat("carousel slide cta-slider-carousel", " carousel-fade");
  }

  lemma DataAttributesInert(c: SliderConfig)
    ensures InertAttrs(DataAttributes(c))
  {
    DigitsHaveNoSpecials(NatToString(Abs(c.interval)));
    var ride: seq<Attr> := if c.autoplay then [(Ride, "carousel"), (Interval, NatToString(Abs(c.interval)))] else [(Ride, "false")];
    var keyboard: seq<Attr> := if !c.keyboard then [(Keyboard, "false")] else [];
    var touch: seq<Attr> := if !c.touch then [(Touch, "false")] else [];
    var pause: seq<Attr> := [(Pause, if c.pauseHover then "hover" else "false")];
    var wrap: seq<Attr> := if !c.wrap then [(Wrap, "false")] else [];
    assert NoSpecials("carousel") && NoSpecials("false") && NoSpecials("hover");
    assert InertAttrs(ride) && InertAttrs(keyboard) && InertAttrs(touch) && InertAttrs(pause) && InertAttrs(wrap);
    InertAttrsConcat(ride, keyboard);
    InertAttrsConcat(ride + keyboard, touch);
    InertAttrsConcat(ride + keyboard + touch, pause);
    InertAttrsConcat(ride + keyboard + touch + pause, wrap);
  }

  /** With an `esc_url` that strips quotes and angle brackets, nothing a
      slide author typed can open a tag or leave an attribute value: every
      text and attribute value of the rendered carousel is inert. */
  lemma CarouselInert(h: Helpers, c: SliderConfig, rows: seq<Bag>, uid: string)
    requires SafeUrlEscaping(h)
    ensures Inert(CarouselRoot(h, c, rows, uid))
  {
    CarouselChildrenInert(h, c, rows, uid);
    RootAttrsInert(c, uid);
  }

  lemma CarouselChildrenInert(h: Helpers, c: SliderConfig, rows: seq<Bag>, uid: string)
    requires SafeUrlEscaping(h)
    ensures InertSeq(CarouselRoot(h, c, rows, uid).children)
  {
    var pre: seq<Node> := if c.indicators then [Indicators(|rows|, uid)] else [];
    var inner := [Element("div", [("class", "carousel-inner")], SlideItems(h, rows))];
    var post: seq<Node> := if c.controls then Controls(uid) else [];
    assert InertSeq(pre) by {
      IndicatorsInert(|rows|, uid);
    }
    assert InertSeq(inner) by {
      SlideItemsInert(h, rows);
      assert NoSpecials("carousel-inner");
    }
    assert InertSeq(post) by {
      ControlsInert(uid);
    }
    InertSeqConcat(pre, inner);
    InertSeqConcat(pre + inner, post);
  }

  lemma SlideItemsInert(h: Helpers, rows: seq<Bag>)
    requires SafeUrlEscaping(h)
    ensures InertSeq(SlideItems(h, rows))
  {
    var items := SlideItems(h, rows);
    forall i | 0 <= i < |items| ensures Inert(items[i]) {
      SlideItemInert(EscapeSlideOutput(h, rows[i]), i == 0);
    }
  }

  // ---------------------------------------------------------------------
  // The shortcode

  const NoIdComment := "<!-- CTA Slider: No slider ID provided -->"

  function NotFoundComment(k: string): string {
    "<!-- CTA Slider: Slider \"" + EscAttr(k) + "\" not found -->"
  }

  function InactiveComment(k: string): string {
    "<!-- CTA Slider: Slider \"" + EscAttr(k) + "\" is inactive -->"
  }

  function NoSlidesComment(k: string): string {
    "<!-- CTA Slider: Slider \"" + EscAttr(k) + "\" has no active slides -->"
  }

  /** The element id of the `count`-th carousel rendered on the page. */
  function UniqueId(k: string, count: nat): string {
    "cta-slider-" + k + "-" + NatToString(count)
  }

  /** The number of decimal digits at the end of a string. */
  function TrailingDigits(t: string): (n: nat)
    ensures n <= |t|
  {
    if t == [] || !IsDigit(t[|t| - 1]) then 0 else 1 + TrailingDigits(t[..|t| - 1])
  }

  lemma {:induction false} TrailingDigitsAfterDash(p: string, d: string)
    requires AllDigits(d)
    ensures TrailingDigits(p + "-" + d) == |d|
  {
    var t := p + "-" + d;
    if d == [] {
      assert t[|t| - 1] == '-';
    } else {
      assert t[..|t| - 1] == p + "-" + d[..|d| - 1];
      TrailingDigitsAfterDash(p, d[..|d| - 1]);
    }
  }

  /** Carousels rendered with different counters get different element ids,
      whatever their sliders' slugs (slugs may themselves contain '-'). */
  lemma UniqueIdInjective(k1: string, n1: nat, k2: string, n2: nat)
    requires UniqueId(k1, n1) == UniqueId(k2, n2)
    ensures k1 == k2 && n1 == n2
  {
    var d1, d2 := NatToString(n1), NatToString(n2);
    var s := UniqueId(k1, n1);
    assert s == ("cta-slider-" + k1 + "-") + d1;
    assert s == ("cta-slider-" + k2 + "-") + d2;
    TrailingDigitsAfterDash("cta-slider-" + k1, d1);
    TrailingDigitsAfterDash("cta-slider-" + k2, d2);
    assert d1 == s[|s| - |d1|..] == d2;
    NatToStringInjective(n1, n2);
    assert "cta-slider-" + k1 == s[..|s| - |d1| - 1] == "cta-slider-" + k2;
    assert k1 == ("cta-slider-" + k1)[11..];
    assert k2 == ("cta-slider-" + k2)[11..];
  }

  /** The rows `get_results(..., ARRAY_A)` hands to the renderer. */
  function RowBags(r: seq<Slide>): (b: seq<Bag>)
    ensures |b| == |r|
  {
    seq(|r|, i requires 0 <= i < |r| => RowToBag(r[i]))
  }

  /** What the page shows for a slide row: its flags as stored, and each
      text field through the escaping of its context. */
  lemma EscapedRow(h: Helpers, s: Slide)
    ensures var e := EscapeSlideOutput(h, RowToBag(s));
      && e.captionEnabled == s.captionEnabled
      && e.buttonEnabled == s.buttonEnabled
      && e.buttonNewTab == s.buttonNewTab
      && e.imageUrl == (if s.imageUrl.Some? then EscUrl(h, s.imageUrl.value) else "")
      && e.imageAlt == EscHtml(s.imageAlt)
      && e.captionTitle == EscHtml(s.captionTitle)
      && e.captionText == EscHtml(s.captionText)
      && e.buttonText == EscHtml(s.buttonText)
      && e.buttonUrl == EscUrl(h, s.buttonUrl)
      && e.buttonStyle == EscAttr(s.buttonStyle)
  {
    RowFlagColumns(s);
    RowFlagsSet(s);
    RowTextColumns(s);
    EscapedBag(h, RowToBag(s), s);
  }

  lemma RowFlagsSet(s: Slide)
    ensures var b := RowToBag(s);
      IsSet(b, CaptionEnabled) && IsSet(b, ButtonEnabled) && IsSet(b, ButtonNewTab)
  {
  }

  lemma RowTextColumns(s: Slide)
    ensures var b := RowToBag(s);
      && IsSet(b, ImageAlt) && b[ImageAlt] == Str(s.imageAlt)
      && IsSet(b, CaptionTitle) && b[CaptionTitle] == Str(s.captionTitle)
      && IsSet(b, CaptionText) && b[CaptionText] == Str(s.captionText)
      && IsSet(b, ButtonText) && b[ButtonText] == Str(s.buttonText)
      && IsSet(b, ButtonUrl) && b[ButtonUrl] == Str(s.buttonUrl)
      && IsSet(b, ButtonStyle) && b[ButtonStyle] == Str(s.buttonStyle)
      && (IsSet(b, ImageUrl) <==> s.imageUrl.Some?)
      && (s.imageUrl.Some? ==> b[ImageUrl] == Str(s.imageUrl.value))
  {
    RowImageColumns(s);
    RowCaptionColumns(s);
    RowButtonColumns(s);
  }

  lemma RowImageColumns(s: Slide)
    ensures var b := RowToBag(s);
      && IsSet(b, ImageAlt) && b[ImageAlt] == Str(s.imageAlt)
      && (IsSet(b, ImageUrl) <==> s.imageUrl.Some?)
      && (s.imageUrl.Some? ==> b[ImageUrl] == Str(s.imageUrl.value))
  {
  }

  lemma RowCaptionColumns(s: Slide)
    ensures var b := RowToBag(s);
      && IsSet(b, CaptionTitle) && b[CaptionTitle] == Str(s.captionTitle)
      && IsSet(b, CaptionText) && b[CaptionText] == Str(s.captionText)
  {
  }

  lemma RowButtonColumns(s: Slide)
    ensures var b := RowToBag(s);
      && IsSet(b, ButtonText) && b[ButtonText] == Str(s.buttonText)
      && IsSet(b, ButtonUrl) && b[ButtonUrl] == Str(s.buttonUrl)
      && IsSet(b, ButtonStyle) && b[ButtonStyle] == Str(s.buttonStyle)
  {
  }

  lemma EscapedBag(h: Helpers, b: Bag, s: Slide)
    requires IsSet(b, CaptionEnabled) && ToBool(b[CaptionEnabled]) == s.captionEnabled
    requires IsSet(b, ButtonEnabled) && ToBool(b[ButtonEnabled]) == s.buttonEnabled
    requires IsSet(b, ButtonNewTab) && ToBool(b[ButtonNewTab]) == s.buttonNewTab
    requires IsSet(b, ImageAlt) && b[ImageAlt] == Str(s.imageAlt)
    requires IsSet(b, CaptionTitle) && b[CaptionTitle] == Str(s.captionTitle)
    requires IsSet(b, CaptionText) && b[CaptionText] == Str(s.captionText)
    requires IsSet(b, ButtonText) && b[ButtonText] == Str(s.buttonText)
    requires IsSet(b, ButtonUrl) && b[ButtonUrl] == Str(s.buttonUrl)
    requires IsSet(b, ButtonStyle) && b[ButtonStyle] == Str(s.buttonStyle)
    requires IsSet(b, ImageUrl) <==> s.imageUrl.Some?
    requires s.imageUrl.Some? ==> b[ImageUrl] == Str(s.imageUrl.value)
    ensures var e := EscapeSlideOutput(h, b);
      && e.captionEnabled == s.captionEnabled
      && e.buttonEnabled == s.buttonEnabled
      && e.buttonNewTab == s.buttonNewTab
      && e.imageUrl == (if s.imageUrl.Some? then EscUrl(h, s.imageUrl.value) else "")
      && e.imageAlt == EscHtml(s.imageAlt)
      && e.captionTitle == EscHtml(s.captionTitle)
      && e.captionText == EscHtml(s.captionText)
      && e.buttonText == EscHtml(s.buttonText)
      && e.buttonUrl == EscUrl(h, s.buttonUrl)
      && e.buttonStyle == EscAttr(s.buttonStyle)
  {
  }

  /** CTA_Slider_Shortcode with its database and its carousel counter (a
      static property in the plugin: one per page request). */
  class ShortcodeHandler {
    var instanceCount: nat
    const db: Store

    constructor(db: Store)
      ensures this.db == db && instanceCount == 0
    {
      this.db := db;
      instanceCount := 0;
    }

    /** `render_shortcode`: an HTML comment explaining why nothing is shown,
        or the carousel of the slider's active slides under a fresh id. */
    method RenderShortcode(h: Helpers, atts: Bag) returns (html: string)
      requires db.Valid()
      modifies this
      ensures var v := Get(atts, Id);
        var k := KeyOf(v);
        var found := db.GetSlider(k);
        if Empty(v) then
          html == NoIdComment && instanceCount == old(instanceCount)
        else if found.None? then
          html == NotFoundComment(k) && instanceCount == old(instanceCount)
        else if !found.value.config.active then
          html == InactiveComment(k) && instanceCount == old(instanceCount)
        else if MatchingIds(db.slides, k, true) == {} then
          html == NoSlidesComment(k) && instanceCount == old(instanceCount)
        else
          && instanceCount == old(instanceCount) + 1
          && exists r :: IsListing(db.slides, k, true, r)
               && html == GenerateCarouselHtml(h, found.value.config, RowBags(r), UniqueId(k, instanceCount))
    {
      var v := Get(atts, Id);
      if Empty(v) {
        return NoIdComment;
      }
      var k := KeyOf(v);
      SanitizeKeyIdempotent(StrVal(v));
      var slider := db.GetSlider(k);
      if slider.None? {
        return NotFoundComment(k);
      }
      if !slider.value.config.active {
        return InactiveComment(k);
      }
      var slides := db.GetSlides(k, true);
      if |slides| == 0 {
        return NoSlidesComment(k);
      }
      instanceCount := instanceCount + 1;
      html := GenerateCarouselHtml(h, slider.value.config, RowBags(slides), UniqueId(k, instanceCount));
    }
  }
}
