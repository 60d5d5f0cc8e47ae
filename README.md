# CTA Slider — a verified model of the plugin's core

CTA Slider is a WordPress plugin. It stores Bootstrap 5 carousels ("sliders")
and their slides, lets administrators edit them, and renders a carousel
wherever a post contains the `[cta_slider id="..."]` shortcode. This project
models the plugin's core in Dafny and proves what that core promises:

- `php.dfy` (module `Php`) holds the PHP and WordPress vocabulary the core
  is written in:
  - PHP arrays as `Bag` (a map from a fixed set of keys to values);
  - `isset`, `empty`, `(bool)`, `absint` and PHP 8 loose string comparison;
  - `sanitize_key`, and `esc_html`/`esc_attr` as entity encoding;
  - `nl2br`, and the two anchored patterns the validators use.

  WordPress helpers whose internals the plugin does not fix are fields of
  `Helpers`: `sanitize_text_field`, `sanitize_textarea_field`,
  `esc_url_raw`, `esc_url`, `filter_var(..., FILTER_VALIDATE_URL)` and
  `wp_get_attachment_url`. The facts the proofs need about them are stated
  as hypotheses (`StableSanitizers`, `SafeUrlEscaping`).
- `security.dfy` (module `Security`, pure) models `CTA_Slider_Security`.
  It covers sanitising a slider configuration and a slide, the button-style
  whitelist, validation with its joined error messages, and the escaping of
  a slide for output.
- `database.dfy` (module `Database`) models `CTA_Slider_Database` as the
  class `Store`. Its fields are:
  - the per-slider options (slug to stored configuration);
  - the `cta_slider_list` option (a sequence of slugs);
  - the slides table (id to row);
  - the table's auto-increment counter.

  Each operation is a method that updates these fields. It is specified by
  pure functions of the old state (`AddToList`, `Without`,
  `SlidesOfOtherSliders`, `ApplyUpdate`, `ReorderedPrefix`, `IsListing`,
  `IsNextOrder`), and lemmas prove the properties of those functions.
- `shortcode.dfy` (module `Shortcode`) models `CTA_Slider_Shortcode`. The
  carousel markup is a tree of HTML elements (`Node`), and `Html` prints it.
  Building the tree is pure. `ShortcodeHandler.RenderShortcode` is a method
  because it advances the carousel counter.
- `slide_manager.dfy` (module `SlideManager`) and `settings.dfy` (module
  `Settings`) model the admin facades `CTA_Slider_Slide_Manager` and
  `CTA_Slider_Settings`. Each one guards, sanitises, validates and then
  delegates to the store.

The current time (`current_time('mysql')`) is a parameter `now` of every
operation that stamps a record.

## Model

| member | source | states |
|---|---|---|
| Php.SanitizeKeyIdempotent | includes/class-cta-slider-security.php:164-166 | A slug that has been sanitised once is not changed by sanitising it again. |
| Php.Nl2brOnlyAddsBreaks | includes/class-cta-slider-shortcode.php:263 | For text without markup characters (escaped caption text), dropping the `<br />` tags `nl2br` inserts gives the text back: only line-break markup is added. |
| Php.StringToIntOfNumeric | includes/class-cta-slider-security.php:195 | On a numeric string (sign, digits, fraction, exponent), `(int)` is the number the string denotes, truncated toward zero and clamped to the 64-bit range, unless the number overflows a double. |
| Php.StringToIntOfDigits | includes/class-cta-slider-shortcode.php:304 | A digit string reads as its number up to PHP_INT_MAX, as PHP_INT_MAX above it, and as 0 once the number overflows a double. |
| Php.StringToIntOfExponent | includes/class-cta-slider-security.php:195 | `<digits>e<digits>` reads as the mantissa times ten to the exponent, clamped to PHP_INT_MAX. |
| Php.AbsIntOfScientific | includes/class-cta-slider-security.php:195 | An interval submitted as "1e4" is read by `absint` as 10000. |
| Security.SanitizeSliderConfig | includes/class-cta-slider-security.php:175-204 | The interval is always in [1000, 30000]. The transition and the fit are always whitelisted. The height is "auto" or digits. The id is a `sanitize_key` key. |
| Security.IntervalClampedToNearestBound | includes/class-cta-slider-security.php:195 | An absent interval is 5000. Otherwise `absint` of the input is clamped to the nearest bound, and a value inside the range is kept. |
| Security.EnumFallbacks | includes/class-cta-slider-security.php:183-193 | The transition is "crossfade" iff the input is "crossfade", and "slide" otherwise. The fit is "cover" iff the input is not "contain" or "none". A whitelisted fit is kept. |
| Security.ImageHeightRule | includes/class-cta-slider-security.php:177-180 | An absent height is "auto". Otherwise the sanitised text is kept when it is a digit string, and is "auto" when it is not. |
| Security.SliderFlagsDefaultOn | includes/class-cta-slider-security.php:190-200 | The eight display flags are on when absent from the input. |
| Security.SanitizeSliderConfigIdempotent | includes/class-cta-slider-security.php:175-204 | Sanitising a sanitised configuration gives the same configuration. |
| Security.SanitizedIdFormat | includes/class-cta-slider-security.php:331 | The slug pattern accepts a sanitised id (made only of lower-case letters, digits, `_` and `-`) iff the id is non-empty and has no underscore. |
| Security.SanitizeButtonStyle | includes/class-cta-slider-security.php:238-251 | The result is one of the eight `btn-*` styles. It equals the input iff the input is on the whitelist, and a style off the whitelist becomes "btn-primary". |
| Security.SanitizeButtonStyleIdempotent | includes/class-cta-slider-security.php:238-251 | Sanitising a sanitised style changes nothing. |
| Security.SanitizeSlideData | includes/class-cta-slider-security.php:213-229 | The slider id is a key and the button style is whitelisted. |
| Security.SlideDefaults | includes/class-cta-slider-security.php:215-227 | Absent fields default to: order 0, image 0, caption, button and new-tab off, style "btn-primary", active on. |
| Security.SanitizeSlideDataIdempotent | includes/class-cta-slider-security.php:213-229 | Sanitising sanitised slide data changes nothing, so the admin screen's second pass is harmless. |
| Security.ValidateSliderConfig | includes/class-cta-slider-security.php:318-340 | The result is Ok iff the id and the name are non-empty and the id matches `^[a-z0-9-]+$`. On success the configuration is returned unchanged. |
| Security.SliderConfigMessages | includes/class-cta-slider-security.php:321-336 | For each failing combination, the exact message: the id, name and format errors, in that order, joined with single spaces. |
| Security.ValidateSlideData | includes/class-cta-slider-security.php:349-373 | The result is Ok iff the slider id is non-empty, the image id is non-zero, and an enabled button with a non-empty URL has a valid URL. On success the data is returned unchanged. |
| Security.InvalidButtonUrl | includes/class-cta-slider-security.php:361-366 | Otherwise-valid data with an invalid URL is rejected with the URL message when the button is enabled, and accepted when it is disabled. |
| Security.EscapeSlideOutput | includes/class-cta-slider-security.php:287-305 | With a quote-stripping `esc_url`, every text and URL field is free of `<`, `>`, `"` and `'`. Absent fields default to: style "btn-primary", active on, caption and button off. |
| Database.InsertedRow | includes/class-cta-slider-database.php:265-305 | The inserted row has the new id, the settled order and now as both timestamps. Its slider id is a key. An absent image id gives no image id, a non-empty one gives the attachment's URL, and the URL is absent iff neither an image id nor a URL is given. Absent flags are off except `active`, which is on, and an absent style is "btn-primary". |
| Database.RowToBagReadsBack | includes/class-cta-slider-database.php:208-223 | A row read back as strings gives the same id, order and image id through `absint` (numbers within PHP's 64-bit range) and the same flags through `(bool)`. |
| Database.AddToList | includes/class-cta-slider-database.php:165-174 | The result holds the old members plus the slug. It is the same list when the slug is present, and the list with the slug appended when it is not. It stays duplicate-free. |
| Database.RemoveFromListIsWithout | includes/class-cta-slider-database.php:183-194 | On a duplicate-free list, removing the first occurrence equals `Without`: every other slug, in its old order. |
| Database.WithoutNoDup | includes/class-cta-slider-database.php:183-194 | Removing a slug keeps the list duplicate-free. |
| Database.LooseListCounterexample | includes/class-cta-slider-database.php:168-186 | With loose comparison, adding "01" to ["1"] is a no-op and removing "01" removes "1". The strict operations keep both slugs apart. |
| Database.InsertByOrderSorted | includes/class-cta-slider-database.php:215 | Inserting a row into a list sorted by order keeps it sorted. |
| Database.IsNextOrderUnique | includes/class-cta-slider-database.php:459-467 | At most one number is the next order of a slider. |
| Database.NextOrderAfterAppend | includes/class-cta-slider-database.php:250-254 | Appending a row of the slider at its next order makes the next order one larger, so inserts without an order number number the slides 0, 1, 2, and so on. |
| Database.NextOrderIgnoresOtherSliders | includes/class-cta-slider-database.php:459-467 | A row of another slider does not change a slider's next order. |
| Database.UpdateTouchesOnlySetFields | includes/class-cta-slider-database.php:316-389 | An update keeps the id and the creation time and stamps the modification time. Every field the data leaves unset keeps its value, and the image URL is kept unless the image or the URL is set. A non-empty image id re-resolves the URL through the attachment lookup. |
| Database.ReorderedPrefixClosedForm | includes/class-cta-slider-database.php:433-450 | After the loop, a slide of the slider has the last position at which its id appears, rows of other sliders and unlisted rows are unchanged, and only the order changes. |
| Database.ReorderAssignsPosition | includes/class-cta-slider-database.php:436-447 | A slide of the slider listed last at position i gets order i. |
| Database.ReorderKeepsMembership | includes/class-cta-slider-database.php:433-450 | Reordering changes neither which rows a slider has nor which of them are active. |
| Database.ReorderThenListFollowsOrder | includes/class-cta-slider-database.php:433-450 | Reordering a slider with a permutation of its slide ids makes `get_slides` list exactly that permutation. |
| Database.Stamped | includes/class-cta-slider-database.php:83-93 | The stored record carries the slug as its id, the given creation time and now as its modification time. |
| Database.SlidesOfOtherSliders | includes/class-cta-slider-database.php:415-423 | Exactly the rows of other sliders remain, each unchanged. |
| Database.Store.GetSlider | includes/class-cta-slider-database.php:63-68 | A record is found iff the sanitised slug has one, and the record's id is that slug. |
| Database.Store.SliderExists | includes/class-cta-slider-database.php:154-156 | A slider exists iff its sanitised slug is in the slider list. |
| Database.Store.AddSliderToList | includes/class-cta-slider-database.php:165-174 | The list becomes `AddToList` of the old list. Nothing else changes. |
| Database.Store.RemoveSliderFromList | includes/class-cta-slider-database.php:183-194 | The list loses the first occurrence of the slug. Nothing else changes. |
| Database.Store.SaveSlider | includes/class-cta-slider-database.php:78-104 | The record is stored under the sanitised slug with the old creation time, or now for a new slider, and now as its modification time. The slug is listed once. The answer is true iff the option changed. The slides are untouched. |
| Database.Store.DeleteAllSlides | includes/class-cta-slider-database.php:415-423 | Exactly the slider's rows are deleted. |
| Database.Store.DeleteSlider | includes/class-cta-slider-database.php:113-125 | The configuration, the list entry and all the slider's slides are removed. Other sliders' records and slides are unchanged. The answer is whether a configuration existed. |
| Database.Store.GetAllSliders | includes/class-cta-slider-database.php:133-145 | The configurations, one per listed slug, in list order. |
| Database.Store.GetSlide | includes/class-cta-slider-database.php:232-241 | The row whose id is `absint` of the argument, if there is one. |
| Database.Store.GetSlideCount | includes/class-cta-slider-database.php:477-489 | The count is 0 iff the slider has no matching rows. It is never more than the table's size. |
| Database.Store.GetSlides | includes/class-cta-slider-database.php:208-223 | Every matching row (active ones only, when asked) exactly once, in ascending order. The length equals `get_slide_count`. |
| Database.Store.GetNextSlideOrder | includes/class-cta-slider-database.php:459-467 | 0 for a slider without slides, otherwise one more than its largest order. Other sliders are ignored. |
| Database.Store.InsertSlide | includes/class-cta-slider-database.php:250-306 | The new row takes the next auto-increment id and is stamped with now. Its order is `absint` of the given order, or the slider's next order when none is given. Nothing else changes. |
| Database.Store.UpdateSlide | includes/class-cta-slider-database.php:316-389 | The row, if it exists, becomes `ApplyUpdate` of the fields the data sets. No other row changes, and the answer is true. |
| Database.Store.DeleteSlide | includes/class-cta-slider-database.php:398-406 | The row is removed, and the answer is true whether or not it existed. |
| Database.Store.ReorderSlides | includes/class-cta-slider-database.php:433-450 | The table becomes `ReorderedPrefix` over the whole list, and the answer is true. |
| Database.BuildUpdateData | includes/class-cta-slider-database.php:325-378 | The loop over the fifteen updatable fields builds exactly the converted value of each field that is set. |
| Database.ToggleChangesOnlyActive | admin/class-cta-slider-admin.php:521-523 | Updating a slide with only `active` changes its active flag and modification time, and nothing else. |
| Shortcode.DataAttributes | includes/class-cta-slider-shortcode.php:174-208 | No Bootstrap option is written twice. |
| Shortcode.DataAttributesConfigureBootstrap | includes/class-cta-slider-shortcode.php:174-208 | Ride is "carousel" with the interval when autoplay is on, and "false" without an interval when it is off. Pause is always present. Keyboard, touch and wrap read as off exactly when disabled. |
| Shortcode.Indicators | includes/class-cta-slider-shortcode.php:218-232 | One button per slide. Each targets the carousel and its own index, and only index 0 is active. |
| Shortcode.SlideItem | includes/class-cta-slider-shortcode.php:242-281 | An item is a `div` whose class is `carousel-item`, plus `active` iff asked. Its first child is the image with the escaped image URL as `src`. A second child, the caption, is there iff the caption rule holds for the escaped slide. |
| Shortcode.SlideItems | includes/class-cta-slider-shortcode.php:151-155 | One item per slide. An item carries the `active` class iff it is the first slide. |
| Shortcode.SlideStructure | includes/class-cta-slider-shortcode.php:252-276 | An item has an image and, exactly when the caption rule holds, a caption. An enabled caption with an enabled button always shows. The caption holds the CTA link iff the button is enabled and its text and URL are non-empty. |
| Shortcode.CtaLinkAttributes | includes/class-cta-slider-shortcode.php:267-273 | The link goes to the button URL with class "btn" plus the style. `target="_blank"` and `rel="noopener noreferrer"` are present iff new-tab is on. |
| Shortcode.Controls | includes/class-cta-slider-shortcode.php:349-363 | Two buttons, previous then next, both targeting the carousel. |
| Shortcode.CarouselFadeClass | includes/class-cta-slider-shortcode.php:131-136 | The root's class ends with `carousel-fade` iff the transition is "crossfade". |
| Shortcode.GenerateCarouselHtml | includes/class-cta-slider-shortcode.php:125-165 | The output ends with the carousel markup. It is exactly that markup iff the height is "auto" and the fit is "cover"; otherwise a `<style>` element comes first. |
| Shortcode.CarouselWiring | includes/class-cta-slider-shortcode.php:125-165 | The root carries the id. Indicators appear iff enabled, then the slides, then controls iff enabled. The indicators and the items agree on the count and on which one is active, and every indicator and control targets the carousel. |
| Shortcode.CustomStyles | includes/class-cta-slider-shortcode.php:291-340 | The style block is empty iff the height is "auto" and the fit is "cover". Otherwise it is a `<style>` element. |
| Shortcode.StyleDeclarations | includes/class-cta-slider-shortcode.php:300-337 | The block is `<style>`, then three rules for the carousel's image selector, then `</style>`. The wide-screen rule has `height: Npx;` (only when the height is not "auto"), then `object-fit` with the whitelisted fit, then `width: 100%;`. The 768px `@media` rule has `height: auto;max-height: Npx;` with the same N. The 576px `@media` rule has `max-height:` followed by the printed min(300, N / 2). For "auto" neither `@media` rule declares anything. N is `absint` of the height. |
| Shortcode.HalfHeightIsCappedHalf | includes/class-cta-slider-shortcode.php:330-331 | The printed small-screen height reads back as min(300, n / 2), including the ".5" of an odd height. |
| Shortcode.CarouselInert | includes/class-cta-slider-shortcode.php:243 | With a quote-stripping `esc_url`, no text or attribute of the carousel contains markup characters. |
| Shortcode.UniqueIdInjective | includes/class-cta-slider-shortcode.php:109-110 | Different slug/counter pairs give different element ids, even for slugs containing "-". |
| Shortcode.EscapedRow | includes/class-cta-slider-shortcode.php:243 | A stored row reaches the page with its flags as stored and each text through the escaper of its context. |
| Shortcode.ShortcodeHandler.RenderShortcode | includes/class-cta-slider-shortcode.php:74-114 | A missing id, an unknown slider, an inactive slider or no active slides each give their own comment and leave the counter alone. Otherwise the counter goes up by one and the carousel of the slider's active slides, in order, is rendered under `cta-slider-<slug>-<count>`. |
| SlideManager.ManagedBagSetsOrder | includes/class-cta-slider-security.php:216 | The sanitised array always carries `slide_order`: `absint` of the given one, or 0. |
| SlideManager.CreateSlideOrderCounterexample | admin/class-cta-slider-slide-manager.php:57-69 | A valid request without an order is sanitised to order 0, although the slider's next order is 1. |
| SlideManager.PreservingUpdateOrder | admin/class-cta-slider-slide-manager.php:79-91 | With the order-preserving array, an update writes the given order, or keeps the old one when none is given. |
| SlideManager.Manager.CreateSlide | admin/class-cta-slider-slide-manager.php:57-69 | An invalid slide writes nothing and returns no id. A valid one is inserted under the next id at the sanitised order. |
| SlideManager.Manager.CreateSlideAppending | admin/class-cta-slider-slide-manager.php:57-69 | As `CreateSlide`, but the new row is `InsertedRow` of the sanitised array without an unrequested `slide_order`: a request with an order keeps it, and a request without one appends the slide at the slider's next order. |
| SlideManager.Manager.UpdateSlide | admin/class-cta-slider-slide-manager.php:79-91 | An invalid slide writes nothing. A valid one overwrites every field of the row, `slide_order` included. |
| SlideManager.Manager.UpdateSlidePreservingOrder | admin/class-cta-slider-slide-manager.php:79-91 | The answer is true iff the data is valid, and nothing is written when it is not. A valid request turns the row, if it exists, into `ApplyUpdate` of the sanitised array without an unrequested `slide_order`, and changes no other row. A request without an order keeps the slide's order. |
| SlideManager.Manager.DeleteSlide | admin/class-cta-slider-slide-manager.php:100-108 | An id whose `absint` is 0 is refused with no write. Any other id's row is removed. |
| SlideManager.Manager.ReorderSlides | admin/class-cta-slider-slide-manager.php:118-129 | An empty slider id or an empty list is refused with no write. Otherwise the store reorders by the `absint` of each entry. |
| SlideManager.Manager.GetSlide | admin/class-cta-slider-slide-manager.php:138-146 | Nothing for an id whose `absint` is 0. Otherwise the row with that id, if any. |
| SlideManager.Manager.GetSlides | admin/class-cta-slider-slide-manager.php:156-164 | Empty for an empty sanitised slider id. Otherwise the store's ordered listing. |
| SlideManager.AbsInts | admin/class-cta-slider-slide-manager.php:126 | Each entry maps to its `absint`, and the length is unchanged. |
| Settings.GetDefaultConfig | admin/class-cta-slider-settings.php:59-76 | The array holds every configuration key with its default: empty slug and name, the eight display flags on, "slide", 5000, "auto" and "cover". |
| Settings.DefaultConfigIsSanitized | admin/class-cta-slider-settings.php:59-76 | Sanitising the default configuration returns it unchanged. |
| Settings.DefaultConfigIsIncomplete | admin/class-cta-slider-settings.php:59-76 | The defaults alone fail validation with the id and name messages. |
| Settings.SettingsHandler.SaveSlider | admin/class-cta-slider-settings.php:87-99 | An invalid configuration writes nothing and answers false. A valid one is stored under its own non-empty slug with the timestamps merged, listed, and no longer available as a new slug. |
| Settings.SettingsHandler.DeleteSlider | admin/class-cta-slider-settings.php:110-118 | An empty sanitised slug is refused with no write. Otherwise the slider, its list entry and its slides are gone, and the slug becomes available. |
| Settings.SettingsHandler.GetSlider | admin/class-cta-slider-settings.php:127-135 | Nothing for an empty sanitised slug. Otherwise the stored record under that slug, if any. |
| Settings.SettingsHandler.IsSliderIdAvailable | admin/class-cta-slider-settings.php:144-152 | Available iff the sanitised slug is non-empty and no slider uses it. |

## Left out

- The WordPress helpers with unspecified internals are uninterpreted `Helpers` fields, as listed above. `esc_html`/`esc_attr` are modelled as entity encoding of `&`, `<`, `>`, `"` and `'`. Their behaviour on already-encoded entities is not modelled.
- `__()` and `esc_html__()` translations are left out. Messages and labels are the English strings.
- `$wpdb` and the options API cannot fail in the model. A `false` from a failed query or `update_option` is not modelled, apart from `update_option`'s "nothing changed" answer in `Database.Store.SaveSlider`.
- Concurrency: races between requests on the next order and the non-atomic reorder loop are not modelled.
- SQL ties: rows with equal orders come back in an unspecified order, and only sortedness is stated.
- PHP's float printing is modelled only for the halved height, which is an integer or ends in ".5".
- In whitelist checks (`in_array` on transitions, fits and button styles), only string values count. PHP's loose comparison of non-strings against those lists (e.g. `true`) is not modelled.
- `ShortcodeHandler.RenderShortcode`: the static `$instance_count` is a field of one handler, so the counter is per handler rather than per PHP process.
- `Shortcode.CustomStyles`: the `isset` fallbacks of `get_custom_styles` are not modelled, because a stored configuration always has both keys.
- Php.StringToInt reads the numeric prefix exactly. PHP first rounds it to a double, which can change the result for prefixes with more than about 15 significant digits and a fraction or exponent (e.g. "1.99999999999999999" is 2 in PHP and 1 in the model). Saturation at PHP_INT_MAX and PHP_INT_MIN, and 0 for a double overflow, are modelled.
- Php.AbsInt: `abs(PHP_INT_MIN)` is a float in PHP; the model returns the integer 2^63 for a string that saturates at PHP_INT_MIN.
- Database.Store.AddSliderToList uses strict comparison, the corrected behaviour of the first finding below, not PHP's loose `in_array`.
- Database.Store.RemoveSliderFromList uses strict comparison, the corrected behaviour of the first finding below, not PHP's loose `array_search`.
- Database.Store.SaveSlider lists the slug through the strict `AddToList` of the first finding below, so its "listed once" result and the store's invariant (a slug is listed iff it has a configuration) rest on that correction.
- Database.Store.DeleteSlider removes the slug through the strict list removal of the first finding below.
- Settings.SettingsHandler.SaveSlider inherits the strict list comparison of `Database.Store.SaveSlider`.
- Settings.SettingsHandler.DeleteSlider inherits the strict list removal of `Database.Store.DeleteSlider`.
- Database.Store.ReorderSlides takes each slide's order from its position in the sequence, where PHP's `foreach ($arr as $order => $id)` takes the array key. The only caller builds the array with `push` (admin/partials/slider-slides.php:193), so its keys are the positions 0, 1, 2, and so on.
- SlideManager.Manager.ReorderSlides: the same position-for-key reading as `Database.Store.ReorderSlides`.
- `escape_slider_config` and the slider-config escaping before output are not part of this model. No core operation calls them.
- The admin layer (request routing, nonces, capabilities, redirects, AJAX responses), the templates and scripts, the activator's table creation, uninstall and public asset loading are not part of this model. Only the toggle's call into `update_slide` is stated (`Database.ToggleChangesOnlyActive`).

## Findings

| source | as written | input that shows it | evidently intended | confidence | as-written member | corrected member |
|---|---|---|---|---|---|---|
| includes/class-cta-slider-database.php:168-186 | `in_array` and `array_search` compare slugs loosely, so two distinct numeric slugs count as the same slider | list ["1"], slug "01": adding it is skipped, and removing it removes "1" | strict comparison, so each slug is added and removed on its own | high; not executed | Database.LooseListCounterexample | Database.RemoveFromListIsWithout |
| includes/class-cta-slider-security.php:216 | `sanitize_slide_data` always sets `slide_order` (0 when absent), so `create_slide` never reaches the next-order branch of `insert_slide`, and `update_slide` always overwrites the order | slider "home" with one slide at order 0; create a slide without `slide_order`: it gets order 0, not 1 | a slide created without an order is appended, and an update without an order keeps the slide's position | high; not executed | SlideManager.CreateSlideOrderCounterexample | SlideManager.Manager.CreateSlideAppending |
