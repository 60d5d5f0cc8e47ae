/**
 * Slider configuration operations of the admin screens (class
 * CTA_Slider_Settings): the defaults for a new slider, and save, delete,
 * fetch and slug-availability, each on the sanitised slug.
 */
module Settings {
  import opened Php
  import opened Security
  import opened Database

  /** The configuration a new slider starts from: no slug or name yet, every
      option on, sliding every five seconds, images at their natural height
      and cropped to cover. */
  const DefaultConfig := SliderConfig(
    id := "", name := "", indicators := true, controls := true,
    transition := "slide", autoplay := true, interval := 5000,
    keyboard := true, touch := true, pauseHover := true, wrap := true,
    active := true, imageHeight := "auto", imageFit := "cover")

  /** `get_default_config`: the defaults as the array the admin form reads. */
  function GetDefaultConfig(): (b: Bag)
    ensures HoldsConfig(b, DefaultConfig)
  {
    ConfigBagLookups(DefaultConfig);
    ConfigBag(DefaultConfig)
  }

  /** Sanitising the defaults gives the defaults back: the form of a new
      slider, submitted untouched, is the default configuration. */
  lemma DefaultConfigIsSanitized(h: Helpers)
    requires StableSanitizers(h)
    ensures SanitizeSliderConfig(h, GetDefaultConfig()) == DefaultConfig
  {
    var c := DefaultConfig;
    assert IsKey("");
    assert "slide" in Transitions && "cover" in ImageFits;
    assert SanitizedConfig(h, c);
    ConfigBagLookups(c);
    ResanitizeConfig(h, c, GetDefaultConfig());
  }

  /** The defaults alone cannot be saved: a slug and a name are required,
      and the message names both. */
  lemma DefaultConfigIsIncomplete()
    ensures ValidateSliderConfig(DefaultConfig) == Err(ErrSliderIdRequired + " " + ErrSliderNameRequired)
  {
    SliderConfigMessages(DefaultConfig);
  }

  /** The submitted configuration passes validation once sanitised. */
  predicate Accepts(h: Helpers, data: Bag) {
    ValidateSliderConfig(SanitizeSliderConfig(h, data)).Ok?
  }

  /** Stamping a configuration with its own slug keeps it as it is. */
  lemma StampedOwnSlug(c: SliderConfig, created: string, now: string)
    ensures Stamped(c, c.id, created, now) == StoredSlider(c, created, now)
  {
    assert c.(id := c.id) == c;
  }

  /** CTA_Slider_Settings over its database. */
  class SettingsHandler {
    const db: Store

    constructor(db: Store)
      ensures this.db == db
    {
      this.db := db;
    }

    /** `save_slider`: nothing is written when the sanitised configuration
        is invalid; otherwise it is stored under its own (non-empty) slug,
        keeping the creation stamp of an earlier version, and the slug is
        listed. */
    method SaveSlider(h: Helpers, now: string, data: Bag) returns (ok: bool)
      requires db.Valid()
      modifies db
      ensures db.Valid()
      ensures var c := SanitizeSliderConfig(h, data);
        if !Accepts(h, data) then
          !ok && unchanged(db)
        else
          var created := if c.id in old(db.configs) then old(db.configs)[c.id].created else now;
          && !EmptyString(c.id)
          && db.configs == old(db.configs)[c.id := StoredSlider(c, created, now)]
          && db.sliderList == AddToList(old(db.sliderList), c.id)
          && (ok <==> c.id !in old(db.configs) || old(db.configs)[c.id] != StoredSlider(c, created, now))
          && db.slides == old(db.slides) && db.nextId == old(db.nextId)
          && GetSlider(c.id) == Some(StoredSlider(c, created, now))
          && !IsSliderIdAvailable(c.id)
    {
      var c := SanitizeSliderConfig(h, data);
      if !Accepts(h, data) {
        return false;
      }
      assert !EmptyString(c.id);
      SanitizeKeyFixesKeys(c.id);
      ghost var created := if c.id in db.configs then db.configs[c.id].created else now;
      StampedOwnSlug(c, created, now);
      ok := db.SaveSlider(now, c.id, c);
    }

    /** `delete_slider`: refused for an empty sanitised slug; otherwise the
        slider, its list entry and all its slides go. */
    method DeleteSlider(sliderId: string) returns (ok: bool)
      requires db.Valid()
      modifies db
      ensures db.Valid()
      ensures var k := SanitizeKey(sliderId);
        if EmptyString(k) then
          !ok && unchanged(db)
        else
          && (ok <==> k in old(db.configs))
          && db.configs == old(db.configs) - {k}
          && db.sliderList == Without(old(db.sliderList), k)
          && db.slides == SlidesOfOtherSliders(old(db.slides), k)
          && db.nextId == old(db.nextId)
          && GetSlider(sliderId) == None
          && IsSliderIdAvailable(sliderId)
    {
      var k := SanitizeKey(sliderId);
      if EmptyString(k) {
        return false;
      }
      SanitizeKeyIdempotent(sliderId);
      ok := db.DeleteSlider(k);
    }

    /** `get_slider`: nothing for an empty sanitised slug, otherwise the
        stored configuration under that slug, if any. */
    function GetSlider(sliderId: string): (r: Option<StoredSlider>)
      reads db
      ensures var k := SanitizeKey(sliderId);
        && (r.Some? <==> !EmptyString(k) && k in db.configs)
        && (r.Some? ==> r.value == db.configs[k])
    {
      var k := SanitizeKey(sliderId);
      if EmptyString(k) then None
      else
        SanitizeKeyIdempotent(sliderId);
        db.GetSlider(k)
    }

    /** `is_slider_id_available`: a non-empty sanitised slug no slider uses. */
    function IsSliderIdAvailable(sliderId: string): (r: bool)
      reads db
      ensures db.Valid() ==> (r <==> !EmptyString(SanitizeKey(sliderId)) && SanitizeKey(sliderId) !in db.sliderList)
    {
      var k := SanitizeKey(sliderId);
      if EmptyString(k) then false
      else
        SanitizeKeyIdempotent(sliderId);
        !db.SliderExists(k)
    }
  }
}
