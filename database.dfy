/**
 * Persistence for sliders and slides (class CTA_Slider_Database).
 *
 * Slider configurations live in WordPress options: one option per slider,
 * keyed by its slug, and one option holding the list of slugs.  Slides are
 * rows of a table with an auto-increment primary key.  `Store` holds all of
 * that state; the current time is a parameter of the operations that stamp
 * rows.
 */
module Database {
  import opened Php
  import opened Security

  /** A slider configuration as stored in its option, with its timestamps. */
  datatype StoredSlider = StoredSlider(config: SliderConfig, created: string, modified: string)

  /** One row of the slides table. */
  datatype Slide = Slide(
    id: nat,
    sliderId: string,
    order: nat,
    imageId: Option<nat>,
    imageUrl: Option<string>,
    imageAlt: string,
    captionEnabled: bool,
    captionTitle: string,
    captionText: string,
    buttonEnabled: bool,
    buttonText: string,
    buttonUrl: string,
    buttonStyle: string,
    buttonNewTab: bool,
    active: bool,
    createdAt: string,
    modifiedAt: string)

  /** A TINYINT flag column as `$wpdb` returns it. */
  function FlagText(b: bool): string {
    if b then "1" else "0"
  }

  /** A row as `$wpdb->get_results(..., ARRAY_A)` returns it: every column as
      a string, and NULL as null. */
  function RowToBag(s: Slide): Bag {
    map[
      Id := Str(NatToString(s.id)),
      SliderId := Str(s.sliderId),
      SlideOrder := Str(NatToString(s.order)),
      ImageId := if s.imageId.Some? then Str(NatToString(s.imageId.value)) else Null,
      ImageUrl := if s.imageUrl.Some? then Str(s.imageUrl.value) else Null,
      ImageAlt := Str(s.imageAlt),
      CaptionEnabled := Str(FlagText(s.captionEnabled)),
      CaptionTitle := Str(s.captionTitle),
      CaptionText := Str(s.captionText),
      ButtonEnabled := Str(FlagText(s.buttonEnabled)),
      ButtonText := Str(s.buttonText),
      ButtonUrl := Str(s.buttonUrl),
      ButtonStyle := Str(s.buttonStyle),
      ButtonNewTab := Str(FlagText(s.buttonNewTab)),
      Active := Str(FlagText(s.active)),
      CreatedAt := Str(s.createdAt),
      ModifiedAt := Str(s.modifiedAt)
    ]
  }

  /** Reading a row back through `absint` and `(bool)` recovers its
      numbers, all within PHP's 64-bit range, and its flags. */
  lemma RowToBagReadsBack(s: Slide)
    requires s.id <= PhpIntMax && s.order <= PhpIntMax
    requires s.imageId.Some? ==> s.imageId.value <= PhpIntMax
    ensures var b := RowToBag(s);
      && AbsInt(b[Id]) == s.id
      && AbsInt(b[SlideOrder]) == s.order
      && (s.imageId.Some? ==> AbsInt(b[ImageId]) == s.imageId.value)
      && ToBool(b[CaptionEnabled]) == s.captionEnabled
      && ToBool(b[ButtonEnabled]) == s.buttonEnabled
      && ToBool(b[ButtonNewTab]) == s.buttonNewTab
      && ToBool(b[Active]) == s.active
  {
    RowNumberColumns(s);
    RowFlagColumns(s);
    AbsIntOfDecimal(s.id);
    AbsIntOfDecimal(s.order);
    if s.imageId.Some? {
      AbsIntOfDecimal(s.imageId.value);
    }
  }

  lemma RowNumberColumns(s: Slide)
    ensures var b := RowToBag(s);
      && Id in b && b[Id] == Str(NatToString(s.id))
      && SlideOrder in b && b[SlideOrder] == Str(NatToString(s.order))
      && ImageId in b && b[ImageId] == (if s.imageId.Some? then Str(NatToString(s.imageId.value)) else Null)
  {
  }

  /** A flag column stored as "1" or "0" reads back as the flag. */
  lemma RowFlagColumns(s: Slide)
    ensures var b := RowToBag(s);
      && CaptionEnabled in b && ToBool(b[CaptionEnabled]) == s.captionEnabled
      && ButtonEnabled in b && ToBool(b[ButtonEnabled]) == s.buttonEnabled
      && ButtonNewTab in b && ToBool(b[ButtonNewTab]) == s.buttonNewTab
      && Active in b && ToBool(b[Active]) == s.active
  {
  }

  // ---------------------------------------------------------------------
  // The list of slider slugs

  predicate NoDup(xs: seq<string>) {
    forall i, j :: 0 <= i < j < |xs| ==> xs[i] != xs[j]
  }

  /** `add_slider_to_list` with a strict membership test: append unless present. */
  function AddToList(list: seq<string>, s: string): (r: seq<string>)
    ensures forall x :: x in r <==> x in list || x == s
    ensures NoDup(list) ==> NoDup(r)
    ensures s !in list ==> r == list + [s]
    ensures s in list ==> r == list
  {
    if s in list then list else list + [s]
  }

  /** The first position of `s` in `list`. */
  function IndexOf(list: seq<string>, s: string): (i: nat)
    requires s in list
    ensures i < |list| && list[i] == s
    ensures forall j :: 0 <= j < i ==> list[j] != s
  {
    if list[0] == s then 0 else 1 + IndexOf(list[1..], s)
  }

  /** `remove_slider_from_list` with a strict search: drop the first
      occurrence of `s` and close the gap (`unset` then `array_values`). */
  function RemoveFromList(list: seq<string>, s: string): seq<string> {
    if s in list then
      var i := IndexOf(list, s);
      list[..i] + list[i + 1..]
    else list
  }

  /** Reference definition: every entry except those equal to `s`, in order. */
  function Without(list: seq<string>, s: string): (r: seq<string>)
    ensures forall x :: x in r <==> x in list && x != s
  {
    if list == [] then []
    else (if list[0] == s then [] else [list[0]]) + Without(list[1..], s)
  }

  lemma NoDupTail(list: seq<string>)
    requires NoDup(list) && list != []
    ensures NoDup(list[1..]) && list[0] !in list[1..]
  {
    forall i, j | 0 <= i < j < |list[1..]| ensures list[1..][i] != list[1..][j] {
      assert list[1..][i] == list[i + 1] && list[1..][j] == list[j + 1];
    }
  }

  lemma {:induction false} WithoutNoDup(list: seq<string>, s: string)
    requires NoDup(list)
    ensures NoDup(Without(list, s))
  {
    if list != [] {
      NoDupTail(list);
      WithoutNoDup(list[1..], s);
    }
  }

  lemma {:induction false} WithoutAbsent(list: seq<string>, s: string)
    requires s !in list
    ensures Without(list, s) == list
  {
    if list != [] {
      WithoutAbsent(list[1..], s);
      assert list == [list[0]] + list[1..];
    }
  }

  /** Removing the first occurrence from a list that does not start with it
      keeps the head. */
  lemma RemoveFromListCons(list: seq<string>, s: string)
    requires s in list && list[0] != s
    ensures RemoveFromList(list, s) == [list[0]] + RemoveFromList(list[1..], s)
  {
    var t := list[1..];
    assert s in t by {
      var i :| 0 <= i < |list| && list[i] == s;
      assert t[i - 1] == s;
    }
    var j := IndexOf(t, s);
    assert IndexOf(list, s) == j + 1;
    SpliceAfterHead(list, j);
  }

  /** Cutting out position `j + 1` keeps the head in front. */
  lemma SpliceAfterHead<T>(list: seq<T>, j: nat)
    requires j + 1 < |list|
    ensures list[..j + 1] + list[j + 2..] == [list[0]] + (list[1..][..j] + list[1..][j + 1..])
  {
    assert list[..j + 1] == [list[0]] + list[1..][..j];
    assert list[j + 2..] == list[1..][j + 1..];
  }

  /** On a duplicate-free list, removing the first occurrence removes every
      occurrence, and the remaining slugs keep their order. */
  lemma {:induction false} RemoveFromListIsWithout(list: seq<string>, s: string)
    requires NoDup(list)
    ensures RemoveFromList(list, s) == Without(list, s)
  {
    if s !in list {
      WithoutAbsent(list, s);
    } else {
      NoDupTail(list);
      if list[0] == s {
        WithoutAbsent(list[1..], s);
        assert list[..0] + list[1..] == list[1..];
      } else {
        RemoveFromListCons(list, s);
        RemoveFromListIsWithout(list[1..], s);
      }
    }
  }

  // ---------------------------------------------------------------------
  // The list operations as written, with PHP's loose comparison

  /** The first position whose entry is loosely equal to `s`, or the
      length of the list when there is none: `in_array` and `array_search`
      without their strict flag. */
  function LooseIndexOf(list: seq<string>, s: string): (i: nat)
    ensures i <= |list|
  {
    if list == [] then 0
    else if LooseEquals(list[0], s) then 0
    else 1 + LooseIndexOf(list[1..], s)
  }

  /** `add_slider_to_list` as written. */
  function AddToListLoose(list: seq<string>, s: string): seq<string> {
    if LooseIndexOf(list, s) < |list| then list else list + [s]
  }

  /** `remove_slider_from_list` as written. */
  function RemoveFromListLoose(list: seq<string>, s: string): seq<string> {
    var i := LooseIndexOf(list, s);
    if i < |list| then list[..i] + list[i + 1..] else list
  }

  lemma NumericOne()
    ensures NumericValue("1") == Some(1.0)
    ensures NumericValue("01") == Some(1.0)
  {
    NumericOneDigit();
    NumericLeadingZero();
  }

  lemma NumericOneDigit()
    ensures NumericValue("1") == Some(1.0)
  {
    var one := "1";
    assert one[0] == '1' && AllDigits(one);
    NumericValueOfDigits(one);
    assert one[..0] == [];
  }

  lemma NumericLeadingZero()
    ensures NumericValue("01") == Some(1.0)
  {
    var s := "01";
    assert s[0] == '0' && s[1] == '1' && AllDigits(s);
    NumericValueOfDigits(s);
    assert s[..1] == "0" && "0"[..0] == [];
  }

  /** Two distinct slugs that `sanitize_key` accepts compare loosely equal:
      adding "01" to a list holding "1" leaves the list unchanged, and
      removing "01" removes "1". */
  lemma LooseListCounterexample()
    ensures IsKey("1") && IsKey("01") && "1" != "01"
    ensures AddToListLoose(["1"], "01") == ["1"]
    ensures RemoveFromListLoose(["1"], "01") == []
    ensures AddToList(["1"], "01") == ["1", "01"]
    ensures RemoveFromList(["1"], "01") == ["1"]
  {
    NumericOne();
    var list := ["1"];
    assert LooseEquals(list[0], "01");
    assert LooseIndexOf(list, "01") == 0;
    assert "01" != "1" by { assert |"01"| != |"1"|; }
    assert "01" !in list;
  }

  // ---------------------------------------------------------------------
  // Queries on the slides table, as pure functions of the table

  /** `WHERE slider_id = %s [AND active = 1]` */
  function MatchingIds(slides: map<nat, Slide>, sliderId: string, activeOnly: bool): set<nat> {
    set k | k in slides && slides[k].sliderId == sliderId && (!activeOnly || slides[k].active)
  }

  predicate SortedByOrder(r: seq<Slide>) {
    forall i, j :: 0 <= i < j < |r| ==> r[i].order <= r[j].order
  }

  predicate DistinctIds(r: seq<Slide>) {
    forall i, j :: 0 <= i < j < |r| ==> r[i].id != r[j].id
  }

  /** `r` is what `get_slides` returns for the slider: every matching row
      once, and nothing else, in ascending `slide_order`. */
  ghost predicate IsListing(slides: map<nat, Slide>, sliderId: string, activeOnly: bool, r: seq<Slide>) {
    var ids := MatchingIds(slides, sliderId, activeOnly);
    && SortedByOrder(r)
    && DistinctIds(r)
    && |r| == |ids|
    && (forall x :: x in r ==> x.id in ids && slides[x.id] == x)
    && (forall k :: k in ids ==> slides[k] in r)
  }

  /** `ORDER BY slide_order ASC` one row at a time: the row goes after every
      row whose order is not larger than its own. */
  function InsertByOrder(r: seq<Slide>, s: Slide): (res: seq<Slide>)
    ensures multiset(res) == multiset(r) + multiset{s}
  {
    if r == [] || s.order < r[0].order then [s] + r
    else
      assert r == [r[0]] + r[1..];
      [r[0]] + InsertByOrder(r[1..], s)
  }

  lemma {:induction false} InsertByOrderSorted(r: seq<Slide>, s: Slide)
    requires SortedByOrder(r)
    ensures SortedByOrder(InsertByOrder(r, s))
  {
    if r != [] && r[0].order <= s.order {
      InsertByOrderSorted(r[1..], s);
      var tail := InsertByOrder(r[1..], s);
      forall x | x in tail ensures r[0].order <= x.order {
        assert x in multiset(tail);
        if x != s {
          assert x in multiset(r[1..]);
          var j :| 0 <= j < |r[1..]| && r[1..][j] == x;
          assert r[j + 1] == x;
        }
      }
    }
  }

  lemma {:induction false} InsertByOrderDistinct(r: seq<Slide>, s: Slide)
    requires DistinctIds(r)
    requires forall x :: x in r ==> x.id != s.id
    ensures DistinctIds(InsertByOrder(r, s))
  {
    if r != [] && r[0].order <= s.order {
      assert DistinctIds(r[1..]) by {
        forall i, j | 0 <= i < j < |r[1..]| ensures r[1..][i].id != r[1..][j].id {
          assert r[1..][i] == r[i + 1] && r[1..][j] == r[j + 1];
        }
      }
      InsertByOrderDistinct(r[1..], s);
      var tail := InsertByOrder(r[1..], s);
      forall x | x in tail ensures x.id != r[0].id {
        assert x in multiset(tail);
        if x != s {
          assert x in multiset(r[1..]);
          var j :| 0 <= j < |r[1..]| && r[1..][j] == x;
          assert r[j + 1] == x;
        }
      }
    }
  }

  /** The order `get_next_slide_order` answers: 0 for a slider without
      slides, otherwise one more than the largest order it holds. */
  ghost predicate IsNextOrder(slides: map<nat, Slide>, sliderId: string, n: nat) {
    && (forall k :: k in slides && slides[k].sliderId == sliderId ==> slides[k].order < n)
    && (n == 0 || exists k :: k in slides && slides[k].sliderId == sliderId && slides[k].order == n - 1)
  }

  /** The next order is unique. */
  lemma IsNextOrderUnique(slides: map<nat, Slide>, sliderId: string, m: nat, n: nat)
    requires IsNextOrder(slides, sliderId, m) && IsNextOrder(slides, sliderId, n)
    ensures m == n
  {
  }

  /** Appending a row at the next order makes the following order one
      larger: inserts into a slider that give no order number its slides
      0, 1, 2, ... */
  lemma NextOrderAfterAppend(slides: map<nat, Slide>, sliderId: string, n: nat, id: nat, row: Slide)
    requires IsNextOrder(slides, sliderId, n)
    requires id !in slides && row.sliderId == sliderId && row.order == n
    ensures IsNextOrder(slides[id := row], sliderId, n + 1)
  {
    var after := slides[id := row];
    assert id in after && after[id].sliderId == sliderId && after[id].order == n;
  }

  /** Rows of other sliders do not move the next order. */
  lemma NextOrderIgnoresOtherSliders(slides: map<nat, Slide>, sliderId: string, n: nat, id: nat, row: Slide)
    requires IsNextOrder(slides, sliderId, n)
    requires id !in slides && row.sliderId != sliderId
    ensures IsNextOrder(slides[id := row], sliderId, n)
  {
    if n > 0 {
      var k :| k in slides && slides[k].sliderId == sliderId && slides[k].order == n - 1;
      assert k in slides[id := row] && slides[id := row][k] == slides[k];
    }
  }

  /** The row `insert_slide` writes, given the order it settled on. */
  function InsertedRow(h: Helpers, now: string, data: Bag, id: nat, order: nat): (r: Slide)
    ensures r.id == id && r.order == order && r.createdAt == now && r.modifiedAt == now
    ensures IsKey(r.sliderId)
    ensures !IsSet(data, ImageId) <==> r.imageId.None?
    ensures IsSet(data, ImageId) && !Empty(data[ImageId]) ==>
      r.imageUrl == Some(EscUrlRaw(h, h.attachmentUrl(IntVal(data[ImageId]))))
    ensures r.imageUrl.None? <==> !IsSet(data, ImageUrl) && (!IsSet(data, ImageId) || Empty(data[ImageId]))
    ensures !IsSet(data, CaptionEnabled) ==> !r.captionEnabled
    ensures !IsSet(data, ButtonEnabled) ==> !r.buttonEnabled
    ensures !IsSet(data, ButtonNewTab) ==> !r.buttonNewTab
    ensures !IsSet(data, Active) ==> r.active
    ensures !IsSet(data, ButtonStyle) ==> r.buttonStyle == "btn-primary"
  {
    var hasImage := IsSet(data, ImageId) && !Empty(data[ImageId]);
    Slide(
      id := id,
      sliderId := KeyOf(Get(data, SliderId)),
      order := order,
      imageId := if IsSet(data, ImageId) then Some(AbsInt(data[ImageId])) else None,
      imageUrl :=
        if hasImage then Some(EscUrlRaw(h, h.attachmentUrl(IntVal(data[ImageId]))))
        else if IsSet(data, ImageUrl) then Some(EscUrlRaw(h, StrVal(data[ImageUrl])))
        else None,
      imageAlt := if IsSet(data, ImageAlt) then TextField(h, data[ImageAlt]) else "",
      captionEnabled := FlagOr(data, CaptionEnabled, false),
      captionTitle := if IsSet(data, CaptionTitle) then TextField(h, data[CaptionTitle]) else "",
      captionText := if IsSet(data, CaptionText) then h.textareaField(StrVal(data[CaptionText])) else "",
      buttonEnabled := FlagOr(data, ButtonEnabled, false),
      buttonText := if IsSet(data, ButtonText) then TextField(h, data[ButtonText]) else "",
      buttonUrl := if IsSet(data, ButtonUrl) then EscUrlRaw(h, StrVal(data[ButtonUrl])) else "",
      buttonStyle := if IsSet(data, ButtonStyle) then TextField(h, data[ButtonStyle]) else "btn-primary",
      buttonNewTab := FlagOr(data, ButtonNewTab, false),
      active := FlagOr(data, Active, true),
      createdAt := now,
      modifiedAt := now)
  }

  /** The columns `update_slide` may write, in the order it visits them. */
  const UpdateFields: seq<Key> := [
    SliderId, SlideOrder, ImageId, ImageUrl, ImageAlt, CaptionEnabled, CaptionTitle,
    CaptionText, ButtonEnabled, ButtonText, ButtonUrl, ButtonStyle, ButtonNewTab,
    Active, ModifiedAt
  ]

  /** Whether `update_slide` may write the column. */
  predicate IsUpdateField(k: Key) {
    match k
    case SliderId | SlideOrder | ImageId | ImageUrl | ImageAlt | CaptionEnabled | CaptionTitle
      | CaptionText | ButtonEnabled | ButtonText | ButtonUrl | ButtonStyle | ButtonNewTab
      | Active | ModifiedAt => true
    case _ => false
  }

  /** The visiting order lists exactly the writable columns. */
  lemma UpdateFieldsAreUpdateColumns()
    ensures forall k :: k in UpdateFields <==> IsUpdateField(k)
  {
    forall k | k in UpdateFields ensures IsUpdateField(k) {
      var i :| 0 <= i < |UpdateFields| && UpdateFields[i] == k;
      VisitedFieldIsWritable(i);
    }
    forall k | IsUpdateField(k) ensures k in UpdateFields {
      WritableFieldIsVisited(k);
    }
  }

  lemma WritableFieldIsVisited(k: Key)
    requires IsUpdateField(k)
    ensures k in UpdateFields
  {
    var front := [SliderId, SlideOrder, ImageId, ImageUrl, ImageAlt];
    var middle := [CaptionEnabled, CaptionTitle, CaptionText, ButtonEnabled, ButtonText];
    var back := [ButtonUrl, ButtonStyle, ButtonNewTab, Active, ModifiedAt];
    assert UpdateFields == front + middle + back;
    assert k in front || k in middle || k in back;
  }

  lemma VisitedFieldIsWritable(i: nat)
    requires i < |UpdateFields|
    ensures IsUpdateField(UpdateFields[i])
  {
    if i < 5 {
      assert UpdateFields[..5] == [SliderId, SlideOrder, ImageId, ImageUrl, ImageAlt];
      assert UpdateFields[i] == UpdateFields[..5][i];
    } else if i < 10 {
      assert UpdateFields[5..10] == [CaptionEnabled, CaptionTitle, CaptionText, ButtonEnabled, ButtonText];
      assert UpdateFields[i] == UpdateFields[5..10][i - 5];
    } else {
      assert UpdateFields[10..] == [ButtonUrl, ButtonStyle, ButtonNewTab, Active, ModifiedAt];
      assert UpdateFields[i] == UpdateFields[10..][i - 10];
    }
  }

  /** `update_slide`'s input after it stamps `modified_at` and refreshes the
      cached image URL. */
  function PreparedUpdate(h: Helpers, now: string, data: Bag): (p: Bag)
    ensures IsSet(p, ModifiedAt)
  {
    var stamped := data[ModifiedAt := Str(now)];
    if IsSet(data, ImageId) && !Empty(data[ImageId])
    then stamped[ImageUrl := Str(h.attachmentUrl(IntVal(data[ImageId])))]
    else stamped
  }

  /** The value one column of the update receives (the `switch` on the field). */
  function ColumnValue(h: Helpers, k: Key, v: Value): Value {
    match k
    case SliderId => Str(KeyOf(v))
    case SlideOrder => Int(AbsInt(v))
    case ImageId => Int(AbsInt(v))
    case ImageUrl => Str(EscUrlRaw(h, StrVal(v)))
    case ButtonUrl => Str(EscUrlRaw(h, StrVal(v)))
    case CaptionText => Str(h.textareaField(StrVal(v)))
    case CaptionEnabled => Int(if ToBool(v) then 1 else 0)
    case ButtonEnabled => Int(if ToBool(v) then 1 else 0)
    case ButtonNewTab => Int(if ToBool(v) then 1 else 0)
    case Active => Int(if ToBool(v) then 1 else 0)
    case ModifiedAt => v
    case _ => Str(TextField(h, v))
  }

  /** `$update_data`: the set writable fields, each converted. */
  function UpdateData(h: Helpers, p: Bag): map<Key, Value> {
    map k | IsUpdateField(k) && IsSet(p, k) :: ColumnValue(h, k, p[k])
  }

  /** `$wpdb->update` of one row: each column named in `u` takes its value. */
  function ApplyUpdate(row: Slide, u: map<Key, Value>): Slide {
    row.(
      sliderId := if SliderId in u then StrVal(u[SliderId]) else row.sliderId,
      order := if SlideOrder in u then Abs(IntVal(u[SlideOrder])) else row.order,
      imageId := if ImageId in u then Some(Abs(IntVal(u[ImageId]))) else row.imageId,
      imageUrl := if ImageUrl in u then Some(StrVal(u[ImageUrl])) else row.imageUrl,
      imageAlt := if ImageAlt in u then StrVal(u[ImageAlt]) else row.imageAlt,
      captionEnabled := if CaptionEnabled in u then IntVal(u[CaptionEnabled]) != 0 else row.captionEnabled,
      captionTitle := if CaptionTitle in u then StrVal(u[CaptionTitle]) else row.captionTitle,
      captionText := if CaptionText in u then StrVal(u[CaptionText]) else row.captionText,
      buttonEnabled := if ButtonEnabled in u then IntVal(u[ButtonEnabled]) != 0 else row.buttonEnabled,
      buttonText := if ButtonText in u then StrVal(u[ButtonText]) else row.buttonText,
      buttonUrl := if ButtonUrl in u then StrVal(u[ButtonUrl]) else row.buttonUrl,
      buttonStyle := if ButtonStyle in u then StrVal(u[ButtonStyle]) else row.buttonStyle,
      buttonNewTab := if ButtonNewTab in u then IntVal(u[ButtonNewTab]) != 0 else row.buttonNewTab,
      active := if Active in u then IntVal(u[Active]) != 0 else row.active,
      modifiedAt := if ModifiedAt in u then StrVal(u[ModifiedAt]) else row.modifiedAt)
  }

  /** `update_slide` leaves every column the data does not set as it was,
      and always stamps the modification time.  The image URL is the one
      exception: a non-empty image id refreshes it from the attachment. */
  lemma UpdateTouchesOnlySetFields(h: Helpers, now: string, row: Slide, data: Bag)
    ensures var r := ApplyUpdate(row, UpdateData(h, PreparedUpdate(h, now, data)));
      && r.id == row.id && r.createdAt == row.createdAt && r.modifiedAt == now
      && (!IsSet(data, SliderId) ==> r.sliderId == row.sliderId)
      && (!IsSet(data, SlideOrder) ==> r.order == row.order)
      && (!IsSet(data, ImageId) ==> r.imageId == row.imageId)
      && (!IsSet(data, ImageUrl) && !IsSet(data, ImageId) ==> r.imageUrl == row.imageUrl)
      && (IsSet(data, ImageId) && !Empty(data[ImageId]) ==>
            r.imageUrl == Some(EscUrlRaw(h, h.attachmentUrl(IntVal(data[ImageId])))))
      && (!IsSet(data, ImageAlt) ==> r.imageAlt == row.imageAlt)
      && (!IsSet(data, CaptionEnabled) ==> r.captionEnabled == row.captionEnabled)
      && (!IsSet(data, CaptionTitle) ==> r.captionTitle == row.captionTitle)
      && (!IsSet(data, CaptionText) ==> r.captionText == row.captionText)
      && (!IsSet(data, ButtonEnabled) ==> r.buttonEnabled == row.buttonEnabled)
      && (!IsSet(data, ButtonText) ==> r.buttonText == row.buttonText)
      && (!IsSet(data, ButtonUrl) ==> r.buttonUrl == row.buttonUrl)
      && (!IsSet(data, ButtonStyle) ==> r.buttonStyle == row.buttonStyle)
      && (!IsSet(data, ButtonNewTab) ==> r.buttonNewTab == row.buttonNewTab)
      && (!IsSet(data, Active) ==> r.active == row.active)
  {
    UpdateStampsAndImage(h, now, row, data);
    UpdateKeepsUnsetText(h, now, row, data);
    UpdateKeepsUnsetFlags(h, now, row, data);
  }

  lemma UpdateStampsAndImage(h: Helpers, now: string, row: Slide, data: Bag)
    ensures var r := ApplyUpdate(row, UpdateData(h, PreparedUpdate(h, now, data)));
      && r.id == row.id && r.createdAt == row.createdAt && r.modifiedAt == now
      && (!IsSet(data, SliderId) ==> r.sliderId == row.sliderId)
      && (!IsSet(data, SlideOrder) ==> r.order == row.order)
      && (!IsSet(data, ImageId) ==> r.imageId == row.imageId)
      && (!IsSet(data, ImageUrl) && !IsSet(data, ImageId) ==> r.imageUrl == row.imageUrl)
      && (IsSet(data, ImageId) && !Empty(data[ImageId]) ==>
            r.imageUrl == Some(EscUrlRaw(h, h.attachmentUrl(IntVal(data[ImageId])))))
  {
    var p := PreparedUpdate(h, now, data);
    PreparedUpdateSets(h, now, data);
    UpdateDataKeys(h, p);
    UpdateDataValues(h, p);
    ApplyUpdateKeeps(row, UpdateData(h, p));
  }

  lemma UpdateKeepsUnsetText(h: Helpers, now: string, row: Slide, data: Bag)
    ensures var r := ApplyUpdate(row, UpdateData(h, PreparedUpdate(h, now, data)));
      && (!IsSet(data, ImageAlt) ==> r.imageAlt == row.imageAlt)
      && (!IsSet(data, CaptionTitle) ==> r.captionTitle == row.captionTitle)
      && (!IsSet(data, CaptionText) ==> r.captionText == row.captionText)
      && (!IsSet(data, ButtonText) ==> r.buttonText == row.buttonText)
      && (!IsSet(data, ButtonUrl) ==> r.buttonUrl == row.buttonUrl)
      && (!IsSet(data, ButtonStyle) ==> r.buttonStyle == row.buttonStyle)
  {
    var p := PreparedUpdate(h, now, data);
    PreparedUpdateSets(h, now, data);
    UpdateDataTextKeys(h, p);
    UpdateDataValues(h, p);
    ApplyUpdateKeeps(row, UpdateData(h, p));
  }

  lemma UpdateKeepsUnsetFlags(h: Helpers, now: string, row: Slide, data: Bag)
    ensures var r := ApplyUpdate(row, UpdateData(h, PreparedUpdate(h, now, data)));
      && (!IsSet(data, CaptionEnabled) ==> r.captionEnabled == row.captionEnabled)
      && (!IsSet(data, ButtonEnabled) ==> r.buttonEnabled == row.buttonEnabled)
      && (!IsSet(data, ButtonNewTab) ==> r.buttonNewTab == row.buttonNewTab)
      && (!IsSet(data, Active) ==> r.active == row.active)
  {
    var p := PreparedUpdate(h, now, data);
    PreparedUpdateSets(h, now, data);
    UpdateDataFlagKeys(h, p);
    UpdateDataValues(h, p);
    ApplyUpdateKeeps(row, UpdateData(h, p));
  }

  /** The update names a column exactly when the prepared data sets it: the
      slug, order, image and stamp columns. */
  lemma UpdateDataKeys(h: Helpers, p: Bag)
    ensures var u := UpdateData(h, p);
      && (SliderId in u <==> IsSet(p, SliderId))
      && (SlideOrder in u <==> IsSet(p, SlideOrder))
      && (ImageId in u <==> IsSet(p, ImageId))
      && (ImageUrl in u <==> IsSet(p, ImageUrl))
      && (ModifiedAt in u <==> IsSet(p, ModifiedAt))
  {
    UpdateDataKey(h, p, SliderId);
    UpdateDataKey(h, p, SlideOrder);
    UpdateDataKey(h, p, ImageId);
    UpdateDataKey(h, p, ImageUrl);
    UpdateDataKey(h, p, ModifiedAt);
  }

  /** The same for the text columns. */
  lemma UpdateDataTextKeys(h: Helpers, p: Bag)
    ensures var u := UpdateData(h, p);
      && (ImageAlt in u <==> IsSet(p, ImageAlt))
      && (CaptionTitle in u <==> IsSet(p, CaptionTitle))
      && (CaptionText in u <==> IsSet(p, CaptionText))
      && (ButtonText in u <==> IsSet(p, ButtonText))
      && (ButtonUrl in u <==> IsSet(p, ButtonUrl))
      && (ButtonStyle in u <==> IsSet(p, ButtonStyle))
  {
    UpdateDataKey(h, p, ImageAlt);
    UpdateDataKey(h, p, CaptionTitle);
    UpdateDataKey(h, p, CaptionText);
    UpdateDataKey(h, p, ButtonText);
    UpdateDataKey(h, p, ButtonUrl);
    UpdateDataKey(h, p, ButtonStyle);
  }

  /** The same for the flag columns. */
  lemma UpdateDataFlagKeys(h: Helpers, p: Bag)
    ensures var u := UpdateData(h, p);
      && (CaptionEnabled in u <==> IsSet(p, CaptionEnabled))
      && (ButtonEnabled in u <==> IsSet(p, ButtonEnabled))
      && (ButtonNewTab in u <==> IsSet(p, ButtonNewTab))
      && (Active in u <==> IsSet(p, Active))
  {
    UpdateDataKey(h, p, CaptionEnabled);
    UpdateDataKey(h, p, ButtonEnabled);
    UpdateDataKey(h, p, ButtonNewTab);
    UpdateDataKey(h, p, Active);
  }

  lemma UpdateDataKey(h: Helpers, p: Bag, k: Key)
    ensures k in UpdateData(h, p) <==> IsUpdateField(k) && IsSet(p, k)
  {
  }

  /** The stamp passes through unchanged, the order goes through `absint`
      and the image URL is escaped. */
  lemma UpdateDataValues(h: Helpers, p: Bag)
    ensures var u := UpdateData(h, p);
      && (IsSet(p, ModifiedAt) ==> ModifiedAt in u && u[ModifiedAt] == p[ModifiedAt])
      && (IsSet(p, SlideOrder) ==> SlideOrder in u && u[SlideOrder] == Int(AbsInt(p[SlideOrder])))
      && (IsSet(p, ImageUrl) ==> ImageUrl in u && u[ImageUrl] == Str(EscUrlRaw(h, StrVal(p[ImageUrl]))))
  {
    if IsSet(p, SlideOrder) {
      assert ColumnValue(h, SlideOrder, p[SlideOrder]) == Int(AbsInt(p[SlideOrder]));
    }
    if IsSet(p, ImageUrl) {
      assert ColumnValue(h, ImageUrl, p[ImageUrl]) == Str(EscUrlRaw(h, StrVal(p[ImageUrl])));
    }
    if IsSet(p, ModifiedAt) {
      assert ColumnValue(h, ModifiedAt, p[ModifiedAt]) == p[ModifiedAt];
    }
  }

  /** Which fields the prepared update sets: those of the data, plus the
      modification time, plus the image URL when the image id is given. */
  lemma PreparedUpdateSets(h: Helpers, now: string, data: Bag)
    ensures var p := PreparedUpdate(h, now, data);
      && (IsSet(p, SliderId) <==> IsSet(data, SliderId))
      && (IsSet(p, SlideOrder) <==> IsSet(data, SlideOrder))
      && (IsSet(p, ImageId) <==> IsSet(data, ImageId))
      && (IsSet(p, ImageAlt) <==> IsSet(data, ImageAlt))
      && (IsSet(p, CaptionEnabled) <==> IsSet(data, CaptionEnabled))
      && (IsSet(p, CaptionTitle) <==> IsSet(data, CaptionTitle))
      && (IsSet(p, CaptionText) <==> IsSet(data, CaptionText))
      && (IsSet(p, ButtonEnabled) <==> IsSet(data, ButtonEnabled))
      && (IsSet(p, ButtonText) <==> IsSet(data, ButtonText))
      && (IsSet(p, ButtonUrl) <==> IsSet(data, ButtonUrl))
      && (IsSet(p, ButtonStyle) <==> IsSet(data, ButtonStyle))
      && (IsSet(p, ButtonNewTab) <==> IsSet(data, ButtonNewTab))
      && (IsSet(p, Active) <==> IsSet(data, Active))
      && (!IsSet(data, ImageId) ==> (IsSet(p, ImageUrl) <==> IsSet(data, ImageUrl)))
      && IsSet(p, ModifiedAt) && p[ModifiedAt] == Str(now)
      && (IsSet(data, ImageId) && !Empty(data[ImageId]) ==>
            IsSet(p, ImageUrl) && p[ImageUrl] == Str(h.attachmentUrl(IntVal(data[ImageId]))))
  {
  }

  /** A row update changes only the columns it names. */
  lemma ApplyUpdateKeeps(row: Slide, u: map<Key, Value>)
    ensures var r := ApplyUpdate(row, u);
      && r.id == row.id && r.createdAt == row.createdAt
      && (SliderId !in u ==> r.sliderId == row.sliderId)
      && (SlideOrder !in u ==> r.order == row.order)
      && (ImageId !in u ==> r.imageId == row.imageId)
      && (ImageUrl !in u ==> r.imageUrl == row.imageUrl)
      && (ImageAlt !in u ==> r.imageAlt == row.imageAlt)
      && (CaptionEnabled !in u ==> r.captionEnabled == row.captionEnabled)
      && (CaptionTitle !in u ==> r.captionTitle == row.captionTitle)
      && (CaptionText !in u ==> r.captionText == row.captionText)
      && (ButtonEnabled !in u ==> r.buttonEnabled == row.buttonEnabled)
      && (ButtonText !in u ==> r.buttonText == row.buttonText)
      && (ButtonUrl !in u ==> r.buttonUrl == row.buttonUrl)
      && (ButtonStyle !in u ==> r.buttonStyle == row.buttonStyle)
      && (ButtonNewTab !in u ==> r.buttonNewTab == row.buttonNewTab)
      && (Active !in u ==> r.active == row.active)
      && (ModifiedAt in u ==> r.modifiedAt == StrVal(u[ModifiedAt]))
      && (ImageUrl in u ==> r.imageUrl == Some(StrVal(u[ImageUrl])))
  {
  }

  /** The table after the first `n` entries of `reorder_slides`' loop: entry
      `i` sets the order of slide `ids[i]` to `i` when that slide belongs to
      the slider. */
  function ReorderedPrefix(slides: map<nat, Slide>, sliderId: string, ids: seq<Value>, n: nat): (r: map<nat, Slide>)
    requires n <= |ids|
    ensures r.Keys == slides.Keys
  {
    if n == 0 then slides
    else
      var before := ReorderedPrefix(slides, sliderId, ids, n - 1);
      var id := AbsInt(ids[n - 1]);
      if id in before && before[id].sliderId == sliderId
      then before[id := before[id].(order := n - 1)]
      else before
  }

  /** The last position among the first `n` entries that names slide `id`. */
  function LastPosition(ids: seq<Value>, id: nat, n: nat): (r: Option<nat>)
    requires n <= |ids|
    ensures r.Some? ==> r.value < n && AbsInt(ids[r.value]) == id
    ensures r.Some? ==> forall j :: r.value < j < n ==> AbsInt(ids[j]) != id
    ensures r.None? ==> forall j :: 0 <= j < n ==> AbsInt(ids[j]) != id
  {
    if n == 0 then None
    else if AbsInt(ids[n - 1]) == id then Some(n - 1)
    else LastPosition(ids, id, n - 1)
  }

  /** Closed form of the reordering: a slide of the slider takes the last
      position at which its id appears, every other row is untouched, and
      only the order column changes. */
  lemma {:induction false} ReorderedPrefixClosedForm(slides: map<nat, Slide>, sliderId: string, ids: seq<Value>, n: nat, k: nat)
    requires n <= |ids| && k in slides
    ensures var r := ReorderedPrefix(slides, sliderId, ids, n);
      var pos := LastPosition(ids, k, n);
      r[k] == if slides[k].sliderId == sliderId && pos.Some? then slides[k].(order := pos.value) else slides[k]
  {
    if n > 0 {
      ReorderedPrefixClosedForm(slides, sliderId, ids, n - 1, k);
      var before := ReorderedPrefix(slides, sliderId, ids, n - 1);
      assert before[k].sliderId == slides[k].sliderId;
    }
  }

  /** The option value `save_slider` writes: the configuration under slug
      `k`, with its timestamps. */
  function Stamped(config: SliderConfig, k: string, created: string, now: string): (r: StoredSlider)
    ensures r.config.id == k && r.created == created && r.modified == now
  {
    StoredSlider(config.(id := k), created, now)
  }

  /** The table without the rows of one slider. */
  function SlidesOfOtherSliders(slides: map<nat, Slide>, sliderId: string): (r: map<nat, Slide>)
    ensures forall k :: k in r <==> k in slides && slides[k].sliderId != sliderId
    ensures forall k :: k in r ==> r[k] == slides[k]
  {
    map k | k in slides && slides[k].sliderId != sliderId :: slides[k]
  }

  // ---------------------------------------------------------------------
  // The store

  class Store {
    /** `cta_slider_config_<slug>` options. */
    var configs: map<string, StoredSlider>
    /** The `cta_slider_list` option. */
    var sliderList: seq<string>
    /** The slides table, by primary key. */
    var slides: map<nat, Slide>
    /** The table's AUTO_INCREMENT counter. */
    var nextId: nat

    ghost predicate Valid()
      reads this
    {
      && NoDup(sliderList)
      && (forall s :: s in sliderList <==> s in configs)
      && (forall k :: k in configs ==> IsKey(k) && configs[k].config.id == k)
      && nextId >= 1
      && SlidesBelow(slides, nextId)
    }

    constructor ()
      ensures Valid()
      ensures configs == map[] && sliderList == [] && slides == map[] && nextId == 1
    {
      configs := map[];
      sliderList := [];
      slides := map[];
      nextId := 1;
    }

    /** `get_slider`: the stored configuration under the sanitised slug. */
    function GetSlider(sliderId: string): (r: Option<StoredSlider>)
      reads this
      ensures r.Some? <==> SanitizeKey(sliderId) in configs
      ensures Valid() && r.Some? ==> r.value.config.id == SanitizeKey(sliderId)
    {
      var k := SanitizeKey(sliderId);
      if k in configs then Some(configs[k]) else None
    }

    /** `slider_exists`: a slider has a configuration exactly when its slug is listed. */
    function SliderExists(sliderId: string): (r: bool)
      reads this
      ensures Valid() ==> (r <==> SanitizeKey(sliderId) in sliderList)
    {
      GetSlider(sliderId).Some?
    }

    /** `add_slider_to_list` */
    method AddSliderToList(k: string)
      modifies this
      ensures sliderList == AddToList(old(sliderList), k)
      ensures configs == old(configs) && slides == old(slides) && nextId == old(nextId)
    {
      sliderList := AddToList(sliderList, k);
    }

    /** `remove_slider_from_list` */
    method RemoveSliderFromList(k: string)
      modifies this
      ensures sliderList == RemoveFromList(old(sliderList), k)
      ensures configs == old(configs) && slides == old(slides) && nextId == old(nextId)
    {
      sliderList := RemoveFromList(sliderList, k);
    }

    /** `save_slider`: stores the configuration under the sanitised slug,
        keeping the creation time of an existing slider, and lists a new one.
        The answer is `update_option`'s: false when nothing changed. */
    method SaveSlider(now: string, sliderId: string, config: SliderConfig) returns (updated: bool)
      requires Valid()
      modifies this
      ensures Valid()
      ensures var k := SanitizeKey(sliderId);
        var created := if k in old(configs) then old(configs)[k].created else now;
        && configs == old(configs)[k := Stamped(config, k, created, now)]
        && sliderList == AddToList(old(sliderList), k)
        && (updated <==> k !in old(configs) || old(configs)[k] != configs[k])
      ensures slides == old(slides) && nextId == old(nextId)
    {
      var k := SanitizeKey(sliderId);
      var existing := GetSlider(k);
      SanitizeKeyFixesKeys(k);
      var created := if existing.Some? then existing.value.created else now;
      var stored := Stamped(config, k, created, now);
      updated := existing.None? || existing.value != stored;
      configs := configs[k := stored];
      if existing.None? {
        AddSliderToList(k);
      }
    }

    /** `delete_all_slides`: every row of the slider goes. */
    method DeleteAllSlides(sliderId: string) returns (ok: bool)
      requires Valid()
      modifies this
      ensures Valid() && ok
      ensures slides == SlidesOfOtherSliders(old(slides), SanitizeKey(sliderId))
      ensures configs == old(configs) && sliderList == old(sliderList) && nextId == old(nextId)
    {
      slides := SlidesOfOtherSliders(slides, SanitizeKey(sliderId));
      ok := true;
    }

    /** `delete_slider`: the slides, the list entry and the option go; the
        answer is `delete_option`'s: whether there was an option to delete. */
    method DeleteSlider(sliderId: string) returns (deleted: bool)
      requires Valid()
      modifies this
      ensures Valid()
      ensures var k := SanitizeKey(sliderId);
        && configs == old(configs) - {k}
        && sliderList == Without(old(sliderList), k)
        && slides == SlidesOfOtherSliders(old(slides), k)
        && (deleted <==> k in old(configs))
      ensures nextId == old(nextId)
    {
      var k := SanitizeKey(sliderId);
      var _ := DeleteAllSlides(k);
      SanitizeKeyFixesKeys(k);
      RemoveFromListIsWithout(sliderList, k);
      WithoutNoDup(sliderList, k);
      RemoveSliderFromList(k);
      deleted := k in configs;
      configs := configs - {k};
    }

    /** `get_all_sliders`: the configurations in list order. */
    method GetAllSliders() returns (r: seq<StoredSlider>)
      requires Valid()
      ensures |r| == |sliderList|
      ensures forall i :: 0 <= i < |r| ==> r[i] == configs[sliderList[i]] && r[i].config.id == sliderList[i]
    {
      r := [];
      for i := 0 to |sliderList|
        invariant |r| == i
        invariant forall j :: 0 <= j < i ==> r[j] == configs[sliderList[j]]
      {
        var k := sliderList[i];
        SanitizeKeyFixesKeys(k);
        var slider := GetSlider(k);
        if slider.Some? {
          r := r + [slider.value];
        }
      }
    }
  
    /** `get_slide`: the row under the id, when there is one. */
    function GetSlide(slideId: int): (r: Option<Slide>)
      reads this
      ensures r.Some? <==> Abs(slideId) in slides
      ensures Valid() && r.Some? ==> r.value.id == Abs(slideId) && r.value.id >= 1
    {
      var k := Abs(slideId);
      if k in slides then Some(slides[k]) else None
    }

    /** `get_slide_count`: `COUNT(*)` over the slider's rows. */
    function GetSlideCount(sliderId: string, activeOnly: bool): (n: nat)
      reads this
      ensures n <= |slides|
      ensures n == 0 <==> forall k :: k in slides && slides[k].sliderId == SanitizeKey(sliderId) ==> activeOnly && !slides[k].active
    {
      MatchingIdsCount(slides, SanitizeKey(sliderId), activeOnly);
      |MatchingIds(slides, SanitizeKey(sliderId), activeOnly)|
    }

    /** `get_slides`: the slider's rows (all, or the active ones) by ascending
        order.  Rows with equal orders come in no particular order, as in SQL. */
    method GetSlides(sliderId: string, activeOnly: bool) returns (r: seq<Slide>)
      requires Valid()
      ensures IsListing(slides, SanitizeKey(sliderId), activeOnly, r)
      ensures |r| == GetSlideCount(sliderId, activeOnly)
    {
      var ids := MatchingIds(slides, SanitizeKey(sliderId), activeOnly);
      var todo := ids;
      ghost var done: set<nat> := {};
      assert IdsKeyed(slides);
      r := [];
      while todo != {}
        invariant todo <= ids && done == ids - todo
        invariant Collected(slides, r, done)
        decreases todo
      {
        var k :| k in todo;
        CollectStep(slides, r, done, k);
        r := InsertByOrder(r, slides[k]);
        todo := todo - {k};
        done := done + {k};
      }
      CollectedIsListing(slides, SanitizeKey(sliderId), activeOnly, r);
    }

    /** `get_next_slide_order`: one more than the slider's largest order, or
        0 when it has no slides. */
    method GetNextSlideOrder(sliderId: string) returns (n: nat)
      ensures IsNextOrder(slides, SanitizeKey(sliderId), n)
    {
      var key := SanitizeKey(sliderId);
      var todo := slides.Keys;
      ghost var done: set<nat> := {};
      var found := false;
      var max := 0;
      while todo != {}
        invariant todo <= slides.Keys && done == slides.Keys - todo
        invariant forall k :: k in done && slides[k].sliderId == key ==> found && slides[k].order <= max
        invariant found ==> exists k :: k in done && slides[k].sliderId == key && slides[k].order == max
        decreases |todo|
      {
        var k :| k in todo;
        if slides[k].sliderId == key && (!found || slides[k].order > max) {
          found := true;
          max := slides[k].order;
        }
        todo := todo - {k};
        done := done + {k};
      }
      n := if found then max + 1 else 0;
    }

    /** `insert_slide`: a new row under the next AUTO_INCREMENT id, at the
        given order or, when none is given, after the slider's last slide. */
    method InsertSlide(h: Helpers, now: string, data: Bag) returns (id: nat)
      requires Valid()
      modifies this
      ensures Valid()
      ensures id == old(nextId) && id !in old(slides) && nextId == old(nextId) + 1
      ensures id in slides && slides == old(slides)[id := slides[id]]
      ensures slides[id] == InsertedRow(h, now, data, id, slides[id].order)
      ensures IsSet(data, SlideOrder) ==> slides[id].order == AbsInt(data[SlideOrder])
      ensures !IsSet(data, SlideOrder) ==> IsNextOrder(old(slides), slides[id].sliderId, slides[id].order)
      ensures configs == old(configs) && sliderList == old(sliderList)
    {
      var order: nat;
      if IsSet(data, SlideOrder) {
        order := AbsInt(data[SlideOrder]);
      } else {
        order := GetNextSlideOrder(StrVal(Get(data, SliderId)));
        assert KeyOf(Get(data, SliderId)) == SanitizeKey(StrVal(Get(data, SliderId)));
      }
      id := nextId;
      var row := InsertedRow(h, now, data, id, order);
      AddRowBelow(slides, nextId, row);
      slides := slides[id := row];
      nextId := nextId + 1;
    }

    /** `update_slide`: the row, if any, takes the converted value of every
        field the data sets among `UpdateFields`; `modified_at` is always
        stamped.  The answer is true whether or not a row matched. */
    method UpdateSlide(h: Helpers, now: string, slideId: int, data: Bag) returns (ok: bool)
      requires Valid()
      modifies this
      ensures Valid() && ok
      ensures var k := Abs(slideId);
        slides == if k in old(slides)
          then old(slides)[k := ApplyUpdate(old(slides)[k], UpdateData(h, PreparedUpdate(h, now, data)))]
          else old(slides)
      ensures configs == old(configs) && sliderList == old(sliderList) && nextId == old(nextId)
    {
      var p := PreparedUpdate(h, now, data);
      var update := BuildUpdateData(h, p);
      var k := Abs(slideId);
      if k in slides {
        var row := ApplyUpdate(slides[k], update);
        UpdateKeepsKey(h, slides[k], update, p);
        slides := slides[k := row];
      }
      ok := true;
    }

    /** `delete_slide`: the row goes; the answer is true whether or not it existed. */
    method DeleteSlide(slideId: int) returns (ok: bool)
      requires Valid()
      modifies this
      ensures Valid() && ok
      ensures slides == old(slides) - {Abs(slideId)}
      ensures configs == old(configs) && sliderList == old(sliderList) && nextId == old(nextId)
    {
      slides := slides - {Abs(slideId)};
      ok := true;
    }

    /** `reorder_slides`: entry `i` of `ids` gives slide `ids[i]` order `i`,
        provided the slide belongs to the slider. */
    method ReorderSlides(sliderId: string, ids: seq<Value>) returns (ok: bool)
      requires Valid()
      modifies this
      ensures Valid() && ok
      ensures slides == ReorderedPrefix(old(slides), SanitizeKey(sliderId), ids, |ids|)
      ensures configs == old(configs) && sliderList == old(sliderList) && nextId == old(nextId)
    {
      var key := SanitizeKey(sliderId);
      for i := 0 to |ids|
        invariant slides == ReorderedPrefix(old(slides), key, ids, i)
        invariant Valid()
        invariant configs == old(configs) && sliderList == old(sliderList) && nextId == old(nextId)
      {
        var id := AbsInt(ids[i]);
        if id in slides && slides[id].sliderId == key {
          ReorderRowBelow(slides, nextId, id, i);
          slides := slides[id := slides[id].(order := i)];
        }
      }
      ok := true;
    }
  }

  /** The `foreach ($fields ...)` loop of `update_slide`. */
  method BuildUpdateData(h: Helpers, p: Bag) returns (update: map<Key, Value>)
    ensures update == UpdateData(h, p)
  {
    update := map[];
    for i := 0 to |UpdateFields|
      invariant update == UpdateDataOver(h, p, UpdateFields[..i])
    {
      var field := UpdateFields[i];
      assert UpdateFields[..i + 1] == UpdateFields[..i] + [field];
      UpdateDataOverStep(h, p, UpdateFields[..i], field);
      if IsSet(p, field) {
        update := update[field := ColumnValue(h, field, p[field])];
      }
    }
    assert UpdateFields[..|UpdateFields|] == UpdateFields;
    UpdateDataOverAllFields(h, p);
  }

  /** `$update_data` after visiting `fields`. */
  function UpdateDataOver(h: Helpers, p: Bag, fields: seq<Key>): map<Key, Value> {
    map k | k in fields && IsSet(p, k) :: ColumnValue(h, k, p[k])
  }

  lemma UpdateDataOverStep(h: Helpers, p: Bag, fields: seq<Key>, field: Key)
    ensures UpdateDataOver(h, p, fields + [field])
      == if IsSet(p, field) then UpdateDataOver(h, p, fields)[field := ColumnValue(h, field, p[field])]
         else UpdateDataOver(h, p, fields)
  {
    forall k ensures k in fields + [field] <==> k in fields || k == field {
    }
  }

  lemma UpdateDataOverAllFields(h: Helpers, p: Bag)
    ensures UpdateDataOver(h, p, UpdateFields) == UpdateData(h, p)
  {
    UpdateFieldsAreUpdateColumns();
  }

  lemma SubsetCard(a: set<nat>, b: set<nat>)
    requires a <= b
    ensures |a| <= |b|
  {
    assert b == a + (b - a);
  }

  lemma MatchingIdsCount(slides: map<nat, Slide>, sliderId: string, activeOnly: bool)
    ensures |MatchingIds(slides, sliderId, activeOnly)| <= |slides|
    ensures |MatchingIds(slides, sliderId, activeOnly)| == 0 <==>
      forall k :: k in slides && slides[k].sliderId == sliderId ==> activeOnly && !slides[k].active
  {
    var ids := MatchingIds(slides, sliderId, activeOnly);
    SubsetCard(ids, slides.Keys);
    if ids != {} {
      var k :| k in ids;
      assert k in slides && slides[k].sliderId == sliderId && !(activeOnly && !slides[k].active);
    } else {
      forall k | k in slides && slides[k].sliderId == sliderId ensures activeOnly && !slides[k].active {
        assert k !in ids;
      }
    }
  }

  /** One step of collecting rows: inserting row `k` keeps the result
      sorted, duplicate-free and made of exactly the rows seen so far. */
  /** What `get_slides` has gathered after visiting the ids in `done`:
      sorted, without repeats, exactly the rows under those ids. */
  ghost predicate Collected(slides: map<nat, Slide>, r: seq<Slide>, done: set<nat>) {
    && SortedByOrder(r) && DistinctIds(r)
    && (forall x :: x in r ==> x.id in done && x.id in slides && slides[x.id] == x)
    && (forall j :: j in done ==> j in slides && slides[j] in r)
  }

  /** Every row sits under its own id, below the next AUTO_INCREMENT value,
      and belongs to a slug. */
  ghost predicate SlidesBelow(slides: map<nat, Slide>, nextId: nat) {
    forall k :: k in slides ==> 1 <= k < nextId && slides[k].id == k && IsKey(slides[k].sliderId)
  }

  /** A new row under the next id keeps the rows well keyed. */
  lemma AddRowBelow(slides: map<nat, Slide>, nextId: nat, row: Slide)
    requires SlidesBelow(slides, nextId) && nextId >= 1
    requires row.id == nextId && IsKey(row.sliderId)
    ensures SlidesBelow(slides[nextId := row], nextId + 1)
  {
  }

  /** A row moved to another position keeps the rows well keyed. */
  lemma ReorderRowBelow(slides: map<nat, Slide>, nextId: nat, id: nat, order: nat)
    requires SlidesBelow(slides, nextId) && id in slides
    ensures SlidesBelow(slides[id := slides[id].(order := order)], nextId)
  {
  }

  /** Every row sits under its own id. */
  ghost predicate IdsKeyed(slides: map<nat, Slide>) {
    forall k :: k in slides ==> slides[k].id == k
  }

  lemma CollectStep(slides: map<nat, Slide>, r: seq<Slide>, done: set<nat>, k: nat)
    requires IdsKeyed(slides) && k in slides && k !in done
    requires Collected(slides, r, done)
    ensures Collected(slides, InsertByOrder(r, slides[k]), done + {k})
  {
    InsertByOrderSorted(r, slides[k]);
    InsertByOrderDistinct(r, slides[k]);
    InsertByOrderMembers(r, slides[k]);
  }

  /** Having visited every matching id, the gathered rows are the listing. */
  lemma CollectedIsListing(slides: map<nat, Slide>, sliderId: string, activeOnly: bool, r: seq<Slide>)
    requires IdsKeyed(slides) && Collected(slides, r, MatchingIds(slides, sliderId, activeOnly))
    ensures IsListing(slides, sliderId, activeOnly, r)
  {
    var ids := MatchingIds(slides, sliderId, activeOnly);
    forall k | k in ids ensures exists x :: x in r && x.id == k {
      assert slides[k] in r;
      assert slides[k].id == k;
    }
    DistinctCount(r, ids);
  }

  lemma InsertByOrderMembers(r: seq<Slide>, s: Slide)
    ensures forall x :: x in InsertByOrder(r, s) <==> x in r || x == s
  {
    var next := InsertByOrder(r, s);
    forall x ensures x in next <==> x in r || x == s {
      assert x in next <==> x in multiset(next);
      assert x in r <==> x in multiset(r);
    }
  }

  /** The update keeps the row's id and keeps its slider id a slug. */
  lemma UpdateKeepsKey(h: Helpers, row: Slide, update: map<Key, Value>, p: Bag)
    requires IsKey(row.sliderId)
    requires update == UpdateData(h, p)
    ensures ApplyUpdate(row, update).id == row.id
    ensures IsKey(ApplyUpdate(row, update).sliderId)
  {
    UpdateDataKey(h, p, SliderId);
    if SliderId in update {
      assert update[SliderId] == ColumnValue(h, SliderId, p[SliderId]);
      assert StrVal(update[SliderId]) == KeyOf(p[SliderId]);
    }
  }

  /** A duplicate-free sequence of rows covering exactly `ids` has |ids| rows. */
  lemma {:induction false} DistinctCount(r: seq<Slide>, ids: set<nat>)
    requires DistinctIds(r)
    requires forall x :: x in r ==> x.id in ids
    requires forall k :: k in ids ==> exists x :: x in r && x.id == k
    ensures |r| == |ids|
  {
    if r != [] {
      var rest := r[1..];
      assert DistinctIds(rest) by {
        forall i, j | 0 <= i < j < |rest| ensures rest[i].id != rest[j].id {
          assert rest[i] == r[i + 1] && rest[j] == r[j + 1];
        }
      }
      forall x | x in rest ensures x.id in ids - {r[0].id} {
        var j :| 0 <= j < |rest| && rest[j] == x;
        assert r[j + 1] == x;
      }
      forall k | k in ids - {r[0].id} ensures exists x :: x in rest && x.id == k {
        var x :| x in r && x.id == k;
        var j :| 0 <= j < |r| && r[j] == x;
        assert j != 0;
        assert rest[j - 1] == x;
      }
      DistinctCount(rest, ids - {r[0].id});
    }
  }

  // ---------------------------------------------------------------------
  // What reordering promises

  /** A slide named at position `i` and nowhere after takes order `i`. */
  lemma ReorderAssignsPosition(slides: map<nat, Slide>, sliderId: string, ids: seq<Value>, i: nat)
    requires i < |ids|
    requires AbsInt(ids[i]) in slides && slides[AbsInt(ids[i])].sliderId == sliderId
    requires forall j :: i < j < |ids| ==> AbsInt(ids[j]) != AbsInt(ids[i])
    ensures var k := AbsInt(ids[i]);
      ReorderedPrefix(slides, sliderId, ids, |ids|)[k] == slides[k].(order := i)
  {
    var k := AbsInt(ids[i]);
    ReorderedPrefixClosedForm(slides, sliderId, ids, |ids|, k);
    var pos := LastPosition(ids, k, |ids|);
    assert pos.Some?;
    assert pos.value == i;
  }

  /** Reordering touches neither the set of rows nor which slider a row
      belongs to nor whether it is active. */
  lemma ReorderKeepsMembership(slides: map<nat, Slide>, sliderId: string, ids: seq<Value>, s: string, activeOnly: bool)
    ensures MatchingIds(ReorderedPrefix(slides, sliderId, ids, |ids|), s, activeOnly) == MatchingIds(slides, s, activeOnly)
  {
    var after := ReorderedPrefix(slides, sliderId, ids, |ids|);
    forall k | k in slides
      ensures after[k].sliderId == slides[k].sliderId && after[k].active == slides[k].active
    {
      ReorderedPrefixClosedForm(slides, sliderId, ids, |ids|, k);
    }
  }

  predicate StrictlyIncreasing(xs: seq<nat>) {
    forall i, j :: 0 <= i < j < |xs| ==> xs[i] < xs[j]
  }

  lemma {:induction false} IncreasingAtLeastIndex(xs: seq<nat>, i: nat)
    requires StrictlyIncreasing(xs) && i < |xs|
    ensures xs[i] >= i
  {
    if i > 0 {
      IncreasingAtLeastIndex(xs, i - 1);
    }
  }

  lemma {:induction false} IncreasingAtMostIndex(xs: seq<nat>, i: nat)
    requires StrictlyIncreasing(xs) && i < |xs|
    requires forall j :: 0 <= j < |xs| ==> xs[j] < |xs|
    ensures xs[i] <= i
    decreases |xs| - i
  {
    if i + 1 < |xs| {
      IncreasingAtMostIndex(xs, i + 1);
    }
  }

  /** n strictly increasing numbers below n are 0, 1, ..., n - 1. */
  lemma IncreasingBelowLengthIsIdentity(xs: seq<nat>)
    requires StrictlyIncreasing(xs)
    requires forall j :: 0 <= j < |xs| ==> xs[j] < |xs|
    ensures forall i :: 0 <= i < |xs| ==> xs[i] == i
  {
    forall i | 0 <= i < |xs| ensures xs[i] == i {
      IncreasingAtLeastIndex(xs, i);
      IncreasingAtMostIndex(xs, i);
    }
  }

  predicate DistinctNats(xs: seq<nat>) {
    forall i, j :: 0 <= i < j < |xs| ==> xs[i] != xs[j]
  }

  /** The position list the admin screen posts, as PHP integers. */
  function AsInts(xs: seq<nat>): (r: seq<Value>)
    ensures |r| == |xs| && forall i :: 0 <= i < |xs| ==> AbsInt(r[i]) == xs[i]
  {
    seq(|xs|, i requires 0 <= i < |xs| => Int(xs[i]))
  }

  /** After reordering with a permutation of the slider's slide ids, each
      listed row names its position: its order indexes its id in `order`. */
  lemma ReorderedRowsNamePositions(slides: map<nat, Slide>, sliderId: string, order: seq<nat>, r: seq<Slide>)
    requires DistinctNats(order)
    requires forall i :: 0 <= i < |order| ==> order[i] in MatchingIds(slides, sliderId, false)
    requires |order| == |MatchingIds(slides, sliderId, false)|
    requires var after := ReorderedPrefix(slides, sliderId, AsInts(order), |order|);
      forall x :: x in r ==> x.id in MatchingIds(after, sliderId, false) && after[x.id] == x
    ensures forall m :: 0 <= m < |r| ==> r[m].order < |order| && order[r[m].order] == r[m].id
  {
    var ids := AsInts(order);
    var after := ReorderedPrefix(slides, sliderId, ids, |order|);
    DistinctCovers(order, MatchingIds(slides, sliderId, false));
    ReorderKeepsMembership(slides, sliderId, ids, sliderId, false);
    forall m | 0 <= m < |r|
      ensures r[m].order < |order| && order[r[m].order] == r[m].id
    {
      assert r[m] in r;
      var k := r[m].id;
      assert k in MatchingIds(slides, sliderId, false);
      var i := PositionOf(order, k);
      ReorderAssignsPosition(slides, sliderId, ids, i);
    }
  }

  /** Reordering a slider with a permutation of its slide ids makes
      `get_slides` return the slides in exactly that order: any result
      satisfying `get_slides`' contract on the reordered table lists
      `order[0]`, `order[1]`, ... */
  lemma {:induction false} ReorderThenListFollowsOrder(slides: map<nat, Slide>, sliderId: string, order: seq<nat>, r: seq<Slide>)
    requires DistinctNats(order)
    requires forall i :: 0 <= i < |order| ==> order[i] in MatchingIds(slides, sliderId, false)
    requires |order| == |MatchingIds(slides, sliderId, false)|
    requires var after := ReorderedPrefix(slides, sliderId, AsInts(order), |order|);
      && SortedByOrder(r) && DistinctIds(r)
      && |r| == |MatchingIds(after, sliderId, false)|
      && (forall x :: x in r ==> x.id in MatchingIds(after, sliderId, false) && after[x.id] == x)
    ensures |r| == |order|
    ensures forall i :: 0 <= i < |r| ==> r[i].id == order[i]
  {
    ReorderKeepsMembership(slides, sliderId, AsInts(order), sliderId, false);
    ReorderedRowsNamePositions(slides, sliderId, order, r);
    ListedInPositionOrder(r, order);
  }

  /** Rows sorted by order, without repeats, each of whose order is its
      id's position in `order`, follow `order`. */
  lemma ListedInPositionOrder(r: seq<Slide>, order: seq<nat>)
    requires SortedByOrder(r) && DistinctIds(r) && |r| == |order|
    requires forall m :: 0 <= m < |r| ==> r[m].order < |order| && order[r[m].order] == r[m].id
    ensures forall i :: 0 <= i < |r| ==> r[i].id == order[i]
  {
    var orders := seq(|r|, m requires 0 <= m < |r| => r[m].order);
    assert StrictlyIncreasing(orders) by {
      forall a, b | 0 <= a < b < |orders| ensures orders[a] < orders[b] {
        assert orders[a] == r[a].order && orders[b] == r[b].order;
        assert r[a].order != r[b].order by {
          assert order[r[a].order] == r[a].id && order[r[b].order] == r[b].id;
          assert r[a].id != r[b].id;
        }
      }
    }
    IncreasingBelowLengthIsIdentity(orders);
    forall i | 0 <= i < |r| ensures r[i].id == order[i] {
      assert orders[i] == r[i].order;
    }
  }

  /** A duplicate-free list of |S| members of S lists all of S. */
  lemma {:induction false} DistinctCovers(xs: seq<nat>, S: set<nat>)
    requires DistinctNats(xs)
    requires forall i :: 0 <= i < |xs| ==> xs[i] in S
    requires |xs| == |S|
    ensures forall k :: k in S ==> exists j :: 0 <= j < |xs| && xs[j] == k
  {
    if xs != [] {
      var tail := xs[1..];
      var rest := S - {xs[0]};
      assert DistinctNats(tail) by {
        forall i, j | 0 <= i < j < |tail| ensures tail[i] != tail[j] {
          assert tail[i] == xs[i + 1] && tail[j] == xs[j + 1];
        }
      }
      forall i | 0 <= i < |tail| ensures tail[i] in rest {
        assert tail[i] == xs[i + 1];
      }
      assert |rest| == |S| - 1;
      DistinctCovers(tail, rest);
      forall k | k in S ensures exists j :: 0 <= j < |xs| && xs[j] == k {
        if k != xs[0] {
          assert k in rest;
          var j :| 0 <= j < |tail| && tail[j] == k;
          assert xs[j + 1] == k;
        }
      }
    }
  }

  /** Where a member of a list sits in it. */
  function PositionOf(xs: seq<nat>, k: nat): (i: nat)
    requires exists j :: 0 <= j < |xs| && xs[j] == k
    ensures i < |xs| && xs[i] == k
  {
    if xs[0] == k then 0
    else
      assert exists j :: 0 <= j < |xs[1..]| && xs[1..][j] == k by {
        var j :| 0 <= j < |xs| && xs[j] == k;
        assert xs[1..][j - 1] == k;
      }
      1 + PositionOf(xs[1..], k)
  }

  /** The admin screen's toggle, `update_slide($id, ['active' => $v])`,
      changes the active flag and the modification time and nothing else. */
  lemma ToggleChangesOnlyActive(h: Helpers, now: string, row: Slide, v: int)
    ensures ApplyUpdate(row, UpdateData(h, PreparedUpdate(h, now, map[Active := Int(v)])))
      == row.(active := v != 0, modifiedAt := now)
  {
    ToggleUpdateData(h, now, v);
    ApplyActiveAndStamp(row, if v != 0 then 1 else 0, now);
  }

  lemma ToggleUpdateData(h: Helpers, now: string, v: int)
    ensures UpdateData(h, PreparedUpdate(h, now, map[Active := Int(v)]))
      == map[Active := Int(if v != 0 then 1 else 0), ModifiedAt := Str(now)]
  {
    var p := PreparedUpdate(h, now, map[Active := Int(v)]);
    assert p == map[Active := Int(v), ModifiedAt := Str(now)];
  }

  lemma ApplyActiveAndStamp(row: Slide, flag: int, now: string)
    ensures ApplyUpdate(row, map[Active := Int(flag), ModifiedAt := Str(now)])
      == row.(active := flag != 0, modifiedAt := now)
  {
  }
}
