/**
 * Slide operations of the admin screens (class CTA_Slider_Slide_Manager):
 * each one sanitises its input, validates it, and hands it to the database.
 */
module SlideManager {
  import opened Php
  import opened Security
  import opened Database

  /** The array `create_slide` and `update_slide` pass to the database: the
      sanitised slide. */
  function ManagedBag(h: Helpers, data: Bag): Bag {
    SlideBag(SanitizeSlideData(h, data))
  }

  /** The sanitised array always carries `slide_order`: the given one through
      `absint`, or 0 when the request has none. */
  lemma ManagedBagSetsOrder(h: Helpers, data: Bag)
    ensures var b := ManagedBag(h, data);
      && IsSet(b, SlideOrder)
      && b[SlideOrder] == Int(if IsSet(data, SlideOrder) then AbsInt(data[SlideOrder]) else 0)
  {
    SlideBagLookups(SanitizeSlideData(h, data));
  }

  /** The array the manager evidently means to pass: as `ManagedBag`, but
      without `slide_order` when the request did not give one, so that the
      database picks the order itself on insert and keeps it on update. */
  function OrderPreservingBag(h: Helpers, data: Bag): (b: Bag)
    ensures IsSet(b, SlideOrder) <==> IsSet(data, SlideOrder)
  {
    var full := ManagedBag(h, data);
    ManagedBagSetsOrder(h, data);
    if IsSet(data, SlideOrder) then full else full - {SlideOrder}
  }

  /** A row of slider "home" at order 0, and a valid request without
      `slide_order`: the sanitised request asks for order 0 although the next
      free order of the slider is 1, so the created slide is not appended. */
  lemma CreateSlideOrderCounterexample(h: Helpers, now: string)
    ensures var slides := map[1 := Slide(1, "home", 0, Some(5), None, "", false, "", "", false, "", "", "btn-primary", false, true, now, now)];
      var data: Bag := map[SliderId := Str("home"), ImageId := Int(5)];
      var d := SanitizeSlideData(h, data);
      && ValidateSlideData(h, d).Ok?
      && d.order == 0
      && IsNextOrder(slides, d.sliderId, 1)
      && !IsNextOrder(slides, d.sliderId, 0)
  {
    var slides := map[1 := Slide(1, "home", 0, Some(5), None, "", false, "", "", false, "", "", "btn-primary", false, true, now, now)];
    assert 1 in slides && slides[1].sliderId == "home" && slides[1].order == 0;
    var data: Bag := map[SliderId := Str("home"), ImageId := Int(5)];
    assert IsSet(data, SliderId) && data[SliderId] == Str("home");
    assert IsSet(data, ImageId) && data[ImageId] == Int(5);
    assert !IsSet(data, SlideOrder) && !IsSet(data, ButtonEnabled);
    var d := SanitizeSlideData(h, data);
    SlideDefaults(h, data);
    assert IsKey("home");
    SanitizeKeyFixesKeys("home");
    assert d.sliderId == "home";
    assert d.imageId == 5;
    assert !EmptyString("home");
  }

  /** `update_slide` through `$wpdb->update` writes the order the array carries. */
  lemma UpdateWritesOrder(h: Helpers, now: string, row: Slide, b: Bag)
    requires IsSet(b, SlideOrder)
    ensures ApplyUpdate(row, UpdateData(h, PreparedUpdate(h, now, b))).order == AbsInt(b[SlideOrder])
  {
    var p := PreparedUpdate(h, now, b);
    assert IsSet(p, SlideOrder) && p[SlideOrder] == b[SlideOrder];
    UpdateDataValues(h, p);
  }

  /** Without `slide_order` in the array, `update_slide` leaves the order alone. */
  lemma UpdateKeepsOrder(h: Helpers, now: string, row: Slide, b: Bag)
    requires !IsSet(b, SlideOrder)
    ensures ApplyUpdate(row, UpdateData(h, PreparedUpdate(h, now, b))).order == row.order
  {
    var p := PreparedUpdate(h, now, b);
    PreparedUpdateSets(h, now, b);
    UpdateDataKeys(h, p);
    ApplyUpdateKeeps(row, UpdateData(h, p));
  }

  lemma PreservingUpdateOrder(h: Helpers, now: string, row: Slide, data: Bag)
    ensures var updated := ApplyUpdate(row, UpdateData(h, PreparedUpdate(h, now, OrderPreservingBag(h, data))));
      && (IsSet(data, SlideOrder) ==> updated.order == AbsInt(data[SlideOrder]))
      && (!IsSet(data, SlideOrder) ==> updated.order == row.order)
  {
    var b := OrderPreservingBag(h, data);
    if IsSet(data, SlideOrder) {
      ManagedBagSetsOrder(h, data);
      assert b == ManagedBag(h, data);
      UpdateWritesOrder(h, now, row, b);
    } else {
      UpdateKeepsOrder(h, now, row, b);
    }
  }

  lemma PreservingUpdateEffect(h: Helpers, now: string, data: Bag, k: nat, before: map<nat, Slide>, after: map<nat, Slide>)
    requires after == if k in before
      then before[k := ApplyUpdate(before[k], UpdateData(h, PreparedUpdate(h, now, OrderPreservingBag(h, data))))]
      else before
    ensures after.Keys == before.Keys
    ensures k in before ==>
      after[k].order == if IsSet(data, SlideOrder) then AbsInt(data[SlideOrder]) else before[k].order
  {
    if k in before {
      PreservingUpdateOrder(h, now, before[k], data);
    }
  }

  /** `validate_slide_data` accepts the sanitised request. */
  predicate Accepts(h: Helpers, data: Bag) {
    ValidateSlideData(h, SanitizeSlideData(h, data)).Ok?
  }

  /** CTA_Slider_Slide_Manager over its database. */
  class Manager {
    const db: Store

    constructor(db: Store)
      ensures this.db == db
    {
      this.db := db;
    }

    /** `create_slide`: nothing is written and no id is returned when the
        sanitised slide is invalid; otherwise the slide is inserted at the
        order the sanitised array carries (0 unless the request gave one). */
    method CreateSlide(h: Helpers, now: string, data: Bag) returns (id: Option<nat>)
      requires db.Valid()
      modifies db
      ensures db.Valid()
      ensures var d := SanitizeSlideData(h, data);
        if !Accepts(h, data) then
          id.None? && db.slides == old(db.slides) && db.nextId == old(db.nextId)
        else
          && id == Some(old(db.nextId))
          && db.slides == old(db.slides)[id.value := InsertedRow(h, now, ManagedBag(h, data), id.value, d.order)]
      ensures db.configs == old(db.configs) && db.sliderList == old(db.sliderList)
    {
      var d := SanitizeSlideData(h, data);
      if !Accepts(h, data) {
        return None;
      }
      ManagedBagSetsOrder(h, data);
      var n := db.InsertSlide(h, now, ManagedBag(h, data));
      id := Some(n);
    }

    /** `create_slide` as evidently intended: a request without
        `slide_order` appends the slide after the slider's last one. */
    method CreateSlideAppending(h: Helpers, now: string, data: Bag) returns (id: Option<nat>)
      requires db.Valid()
      modifies db
      ensures db.Valid()
      ensures var d := SanitizeSlideData(h, data);
        if !Accepts(h, data) then
          id.None? && db.slides == old(db.slides) && db.nextId == old(db.nextId)
        else
          && id == Some(old(db.nextId))
          && id.value in db.slides
          && db.slides == old(db.slides)[id.value := db.slides[id.value]]
          && db.slides[id.value] == InsertedRow(h, now, OrderPreservingBag(h, data), id.value, db.slides[id.value].order)
          && db.slides[id.value].sliderId == d.sliderId
          && (IsSet(data, SlideOrder) ==> db.slides[id.value].order == d.order)
          && (!IsSet(data, SlideOrder) ==> IsNextOrder(old(db.slides), d.sliderId, db.slides[id.value].order))
      ensures db.configs == old(db.configs) && db.sliderList == old(db.sliderList)
    {
      var d := SanitizeSlideData(h, data);
      if !Accepts(h, data) {
        return None;
      }
      var b := OrderPreservingBag(h, data);
      ManagedBagSetsOrder(h, data);
      SlideBagLookups(d);
      assert Get(b, SliderId) == Str(d.sliderId);
      SanitizeKeyFixesKeys(d.sliderId);
      var n := db.InsertSlide(h, now, b);
      id := Some(n);
    }

    /** `update_slide`: nothing is written when the sanitised slide is
        invalid; otherwise the row, if it exists, takes every field of the
        sanitised array, `slide_order` included. */
    method UpdateSlide(h: Helpers, now: string, slideId: int, data: Bag) returns (ok: bool)
      requires db.Valid()
      modifies db
      ensures db.Valid()
      ensures var d := SanitizeSlideData(h, data);
        var k := Abs(slideId);
        if !Accepts(h, data) then
          !ok && db.slides == old(db.slides)
        else
          && ok
          && db.slides == (if k in old(db.slides)
               then old(db.slides)[k := ApplyUpdate(old(db.slides)[k], UpdateData(h, PreparedUpdate(h, now, ManagedBag(h, data))))]
               else old(db.slides))
          && (k in old(db.slides) ==> db.slides[k].order == d.order)
      ensures db.configs == old(db.configs) && db.sliderList == old(db.sliderList) && db.nextId == old(db.nextId)
    {
      var d := SanitizeSlideData(h, data);
      if !Accepts(h, data) {
        return false;
      }
      var k := Abs(slideId);
      ManagedBagSetsOrder(h, data);
      if k in db.slides {
        UpdateWritesOrder(h, now, db.slides[k], ManagedBag(h, data));
      }
      ok := db.UpdateSlide(h, now, slideId, ManagedBag(h, data));
    }

    /** `update_slide` as evidently intended: a request without
        `slide_order` keeps the slide where it is. */
    method UpdateSlidePreservingOrder(h: Helpers, now: string, slideId: int, data: Bag) returns (ok: bool)
      requires db.Valid()
      modifies db
      ensures db.Valid()
      ensures ok <==> Accepts(h, data)
      ensures !ok ==> db.slides == old(db.slides)
      ensures ok ==> db.slides.Keys == old(db.slides).Keys
      ensures var k := Abs(slideId);
        ok ==> db.slides == if k in old(db.slides)
          then old(db.slides)[k := ApplyUpdate(old(db.slides)[k], UpdateData(h, PreparedUpdate(h, now, OrderPreservingBag(h, data))))]
          else old(db.slides)
      ensures var k := Abs(slideId);
        ok && k in old(db.slides) ==>
          db.slides[k].order == if IsSet(data, SlideOrder) then AbsInt(data[SlideOrder]) else old(db.slides)[k].order
      ensures db.configs == old(db.configs) && db.sliderList == old(db.sliderList) && db.nextId == old(db.nextId)
    {
      if !Accepts(h, data) {
        return false;
      }
      var k := Abs(slideId);
      var b := OrderPreservingBag(h, data);
      ghost var before := db.slides;
      ok := db.UpdateSlide(h, now, slideId, b);
      PreservingUpdateEffect(h, now, data, k, before, db.slides);
    }

    /** `delete_slide`: an id that `absint` turns into 0 is refused without
        touching the table; any other id's row is removed. */
    method DeleteSlide(slideId: Value) returns (ok: bool)
      requires db.Valid()
      modifies db
      ensures db.Valid()
      ensures ok <==> AbsInt(slideId) > 0
      ensures db.slides == if ok then old(db.slides) - {AbsInt(slideId)} else old(db.slides)
      ensures db.configs == old(db.configs) && db.sliderList == old(db.sliderList) && db.nextId == old(db.nextId)
    {
      var id := AbsInt(slideId);
      if id <= 0 {
        return false;
      }
      ok := db.DeleteSlide(id);
    }

    /** `reorder_slides`: refused for an empty slider id or an empty list;
        otherwise every entry goes through `absint` and the database reorders. */
    method ReorderSlides(sliderId: string, order: seq<Value>) returns (ok: bool)
      requires db.Valid()
      modifies db
      ensures db.Valid()
      ensures var k := SanitizeKey(sliderId);
        && (ok <==> !EmptyString(k) && |order| > 0)
        && db.slides == if ok then ReorderedPrefix(old(db.slides), k, AbsInts(order), |order|) else old(db.slides)
      ensures db.configs == old(db.configs) && db.sliderList == old(db.sliderList) && db.nextId == old(db.nextId)
    {
      var k := SanitizeKey(sliderId);
      if EmptyString(k) || |order| == 0 {
        return false;
      }
      SanitizeKeyIdempotent(sliderId);
      ok := db.ReorderSlides(k, AbsInts(order));
    }

    /** `get_slide`: no row for an id `absint` turns into 0, otherwise the
        row with that id if there is one. */
    function GetSlide(slideId: Value): (r: Option<Slide>)
      reads db
      ensures AbsInt(slideId) == 0 ==> r.None?
      ensures r.Some? <==> AbsInt(slideId) > 0 && AbsInt(slideId) in db.slides
      ensures r.Some? ==> r.value == db.slides[AbsInt(slideId)]
    {
      var id := AbsInt(slideId);
      if id <= 0 then None else db.GetSlide(id)
    }

    /** `get_slides`: an empty list for an empty slider id, otherwise the
        slider's slides (active ones only, when asked) by ascending order. */
    method GetSlides(sliderId: string, activeOnly: bool) returns (r: seq<Slide>)
      requires db.Valid()
      ensures var k := SanitizeKey(sliderId);
        && (EmptyString(k) ==> r == [])
        && (!EmptyString(k) ==> IsListing(db.slides, k, activeOnly, r))
    {
      var k := SanitizeKey(sliderId);
      if EmptyString(k) {
        return [];
      }
      SanitizeKeyIdempotent(sliderId);
      r := db.GetSlides(k, activeOnly);
    }
  }

  /** `array_map('absint', $slide_order)` */
  function AbsInts(order: seq<Value>): (r: seq<Value>)
    ensures |r| == |order|
    ensures forall i :: 0 <= i < |r| ==> r[i] == Int(AbsInt(order[i]))
  {
    if order == [] then [] else [Int(AbsInt(order[0]))] + AbsInts(order[1..])
  }

  /** Mapping through `absint` twice changes nothing more: the database's own
      `absint` of each entry reads back the same id. */
  lemma AbsIntsStable(order: seq<Value>)
    ensures forall i :: 0 <= i < |order| ==> AbsInt(AbsInts(order)[i]) == AbsInt(order[i])
  {
  }
}
