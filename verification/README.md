# Wanderlust planner core, modelled in Dafny

This project models the logic at the centre of the Wanderlust travel planner, a browser app. The app lets a user pick a country, city and year. It then shows that country's public holidays, long weekends, events, weather and sun times, and keeps a list of saved plans in the browser's local storage. The model covers four parts:

- **Storage** (`storage.dfy`): the plan store `StorageManager`, modelled as an optional slot holding a sequence of plans. A plan id is tagged as a string or a number, because the store deletes by strict `!==`.
- **Api** (`api.dfy`): the fallback policy of every endpoint of `APIManager`. Each response is `Ok(body) | HttpStatus(n) | NetworkError`. The module also covers how raw ticket-service events are normalised, and the six-item mock event list.
- **Ui** (`ui.dfy`): the pure helpers inside the UI code:
  - weather-code buckets;
  - `UTC±HH:MM` offset parsing, in integer minutes;
  - flag emoji built from regional indicator symbols (Unicode UTS #51, section 1.4.5);
  - day-length split into hours and minutes;
  - country search filtering;
  - plan badges and calling codes;
  - the attributes that the holiday, long-weekend and event cards write onto their save buttons.
- **Controller** (`controller.dfy`): the `App` handlers as pure transitions on a record of selection, store and saved-plan figure:
  - save;
  - search;
  - country change;
  - delete;
  - plan counts and the type filter;
  - the calls the dashboard update issues.

The shared modules hold the JavaScript semantics the core relies on:

- `wrappers.dfy`: `Option`, plus the truthiness of `||` on strings, where an empty string counts as absent.
- `seqs.dfy`: an order-preserving `Filter`, with `Count` and `FindIndex`.
- `text.dfy`:
  - ASCII case mapping and `includes`;
  - decimal rendering of numbers and `Number()` on digit strings;
  - `split` and `join`.

Time, the DOM, `localStorage` and the network are parameters:

- `Date.now()` is the `now` argument of `Controller.HandleSave`.
- The form inputs are handler arguments.
- Each remote answer is a `Response` value.

## Model

| member | source | states |
|---|---|---|
| Storage.GetPlans | src/js/storage.js:12-15 | an empty slot reads as the empty list; a stored list is read back unchanged |
| Storage.SavePlan | src/js/storage.js:6-10 | the new list is the old list with the plan appended; length grows by one and earlier entries are unchanged; there is no precondition, so duplicate ids and empty titles are stored too |
| Storage.DeletePlan | src/js/storage.js:17-21 | a plan survives exactly when its id differs from the argument, as often as it was stored; matching plans all go (not just the first), and the length drops by their number |
| Storage.KeptPlusRemoved | src/js/storage.js:19 | kept plans plus removed plans account for the whole list |
| Storage.DeleteKeepsOrder | src/js/storage.js:19 | the surviving plans are a subsequence of the old list: unmodified and in their original order |
| Storage.DeleteAbsentIsNoop | src/js/storage.js:17-21 | deleting an id no plan carries leaves the list unchanged |
| Storage.DeleteIdempotent | src/js/storage.js:17-21 | deleting an id twice is the same as deleting it once |
| Storage.DeleteStringKeepsNumericIds | src/js/storage.js:19 | id comparison is type-strict: deleting a string id never removes a plan with a numeric id |
| Storage.SaveThenDeleteRestores | src/js/storage.js:6-21 | saving a plan with a fresh id and then deleting that id gives back the original list |
| Storage.NoMatchKeepsAll | src/js/storage.js:19 | filtering a list with no match for the id returns the list itself |
| Storage.PlanId.Rendered | src/js/ui.js:891 | the text a remove button carries for an id: a string id as is; a numeric id as a non-empty string of digits |
| Api.ListOrEmpty | src/js/api.js:8-17 | the body on success; `[]` on any non-ok status or error, so an empty list comes back exactly when the call failed or the service answered with an empty list; the same policy serves `fetchCountries` (api.js lines 41-50) and `fetchHolidays` (lines 52-61) |
| Api.BodyOrNull | src/js/api.js:19-39 | the body on success; `null` exactly when the call failed with a non-ok status or an error; the same policy serves `fetchWeather` (api.js lines 139-149) |
| Api.FetchCountryDetails | src/js/api.js:63-73 | the first array element on success; `undefined` for an empty array; the empty document `{}` on failure |
| Api.Category | src/js/api.js:92-96 | the first classification's segment, else genre, else sub-genre name (empty names skipped), else 'Event'; 'Event' when there are no classifications; never empty |
| Api.ImageUrl | src/js/api.js:98-102 | the url of the first image with ratio '16_9' and width at least 500, else the first image's url, else the placeholder |
| Api.EventLocation | src/js/api.js:104-109 | the first venue's name, else the place's city name, else the searched city, else 'Unknown Venue'; never empty |
| Api.Normalise | src/js/api.js:111-118 | copies id and name; the date is the local start date or 'TBD'; category, image and location follow their fallback chains |
| Api.MockEvents | src/js/api.js:128-137 | exactly six events with ids mock-1 to mock-6; each location is the city if it is non-empty, else that item's fixed default |
| Api.MockIdsAreNumbered | src/js/api.js:130-135 | the i-th catalogue entry has id 'mock-(i+1)' |
| Api.FetchEvents | src/js/api.js:75-126 | the mock list on any non-ok status (401, 403 or other), on any error, and when the embedded event list is missing; otherwise each event is normalised, preserving length and order |
| Api.EventsAreComplete | src/js/api.js:91-125 | every event returned has a non-empty date, category and location |
| Ui.WeatherFor | src/js/ui.js:558-567 | each bucket as an if-and-only-if: 0 is clear; negatives and 1-3 are partly cloudy; 4-49 cloudy; 50-59 light rain; 60-69 rain; 70-79 snow; 80-99 thunderstorm; above 99 the 'weather-default' cloudy entry |
| Ui.ParseOffset | src/js/ui.js:318-325 | 'UTC' gives offset 0; otherwise the text after the first three characters is parsed as a signed clock, so any label of at most four characters (such as 'GMT' or 'UTC+') gives 0 |
| Ui.ParseModifier | src/js/ui.js:321-324 | a leading '-' gives a non-positive offset and any other first character a non-negative one; with nothing after that character the offset is 0 |
| Ui.ParseClock | src/js/ui.js:323-324 | NaN exactly when the hours are not a number; minutes that are missing or not a number count as 0; later pieces are ignored; the sign applies to hours and minutes |
| Ui.ParseOffsetWellFormed | src/js/ui.js:320-324 | 'UTC±HH:MM' gives sign·(HH·60+MM) minutes, with the sign applied to the minutes too |
| Ui.ParseOffsetWithoutMinutes | src/js/ui.js:323-324 | a missing minutes part counts as 0 |
| Ui.ParseClockTwoParts | src/js/ui.js:323-324 | two digit-string parts give sign·(hours·60+minutes) |
| Ui.ParseOffsetSkipsPrefix | src/js/ui.js:321 | the three characters 'UTC' are dropped before the modifier is read |
| Ui.ParseFormatRoundTrip | src/js/ui.js:318-325 | parsing the canonical 'UTC±HH:MM' rendering of any minute offset gives that offset back |
| Ui.CountryOffset | src/js/ui.js:306-325 | no offset is computed when the document lists no timezone; otherwise it is the parse of the first timezone label |
| Ui.CountryOffsetOfLabel | src/js/ui.js:310-325 | a first timezone written 'UTC±HH:MM' yields exactly that offset; the `{}` fallback yields none |
| Ui.FlagEmoji | src/js/ui.js:217-223 | one code point per input character, at 127397 plus the upper-cased character's code, so 'A' maps to U+1F1E6 and a letter maps to a regional indicator |
| Ui.CodeFromFlag | src/js/ui.js:217-223 | reading regional indicators back gives upper-case letters of the same length; anything else is rejected |
| Ui.FlagRoundTrip | src/js/ui.js:217-223 | decoding the flag of an upper-case code gives the code back |
| Ui.FlagIgnoresCase | src/js/ui.js:219 | codes that differ only in letter case get the same flag |
| Ui.JsRem | src/js/ui.js:820 | the JavaScript remainder: it takes the sign of the dividend, is smaller than the divisor in size, and differs from the dividend by a multiple of the divisor |
| Ui.DayLength | src/js/ui.js:818-821 | nothing is shown exactly when the length is 0; for positive s, minutes are below 60 and hours·3600+minutes·60 ≤ s < hours·3600+minutes·60+60 |
| Ui.DayLengthUnique | src/js/ui.js:819-820 | any hours and minutes meeting those bounds are the ones shown |
| Ui.SearchCountries | src/js/ui.js:126-133 | a country is kept exactly when its lower-cased name or code contains the lower-cased term, and the result's length is the number of such entries; an empty term keeps all |
| Ui.SearchKeepsOrder | src/js/ui.js:128 | the result is an order-preserving subsequence of the list |
| Ui.LongerTermNarrows | src/js/ui.js:126-133 | extending the term never adds a country |
| Ui.PlanBadge | src/js/ui.js:850-870 | holiday gives HOLIDAY with extra or 'Public Holiday'; long weekend gives LONG WEEKEND with extra or 'Bridge Day Status'; event gives EVENT with extra, else location, else 'Saved Item'; anything else gives PLAN; the info text is never empty |
| Ui.CallingCode | src/js/ui.js:362-367 | 'N/A' without idd data; otherwise the root followed by the first suffix, with missing parts empty |
| Ui.CallingCodeEmptyIff | src/js/ui.js:362-367 | the calling code is empty exactly when idd data exists with neither a root nor a first suffix; without suffixes it is the root alone |
| Ui.CityOptions | src/js/ui.js:179-202 | no cities give the single empty 'No cities found' option; otherwise one option per city, in order |
| Ui.Interpolate | src/js/ui.js:528 | a template writes an absent field as the word 'undefined' |
| Ui.Attribute | src/js/ui.js:488 | a value written into a double-quoted attribute reads back as the text before its first quote: quote-free text is unchanged, otherwise the value is cut at the quote |
| Ui.AttributeAfterPlainPrefix | src/js/ui.js:760 | a quote-free prefix reads back unchanged, whatever follows it |
| Ui.LongWeekendButton | src/js/ui.js:753-760 | id 'lw-i-year' (the year as read back from the attribute), title 'Long Weekend #(i+1)', type longweekend, the dates as read back, and a status text that depends only on the bridge-day flag |
| Ui.LongWeekendIdsDistinct | src/js/ui.js:760 | different indices give different long-weekend ids |
| Ui.DigitPrefixDetermined | src/js/ui.js:760 | the index in front of the first '-' of a long-weekend id is determined by the id |
| Ui.FirstSeparatorAfterDigits | src/js/ui.js:760 | the first '-' after a rendered index sits right after the digits |
| Ui.HolidayButton | src/js/ui.js:488 | id 'date-countryCode', the name as title, type holiday, extra the local name or else the name, each as read back from its attribute; a quote-free name is the title unchanged |
| Ui.EventButton | src/js/ui.js:528 | the event's id and name as written into the template and read back from the attribute, type event, extra the location; a quote-free name is the title unchanged |
| Text.NatToString | src/js/ui.js:760 | a number renders as a digit string whose decimal value is the number |
| Text.NatToStringInjective | src/js/ui.js:760 | different numbers render differently |
| Text.JsNumber | src/js/ui.js:323 | on the strings the model covers, `Number` gives a value exactly for the empty string (0) and digit strings (their decimal value) and NaN for everything else |
| Text.NumberOfRendered | src/js/ui.js:323 | `Number` reads a rendered number back as that number |
| Text.Lower | src/js/ui.js:127-130 | lower-casing keeps the length and lower-cases each letter, leaving other characters alone |
| Text.Split | src/js/main.js:199 | splitting gives at least one piece and no piece contains the separator |
| Text.Join | src/js/main.js:199 | joining starts with the first piece, followed by the separator when there are more; no pieces join to '' |
| Text.JoinSplit | src/js/main.js:199 | joining the pieces of a split with the same separator gives the string back |
| Text.DropFirstWordSpec | src/js/main.js:199 | splitting on spaces and dropping the first part gives '' for text without a space, and otherwise the text after the first space |
| Controller.SaveLocation | src/js/main.js:145 | the button's location, else the selected country's name, else 'Unknown', with empty strings skipped; never empty |
| Controller.PlanFromButton | src/js/main.js:141-150 | the id is the button's id when non-empty, else the numeric timestamp; the other fields are copied from the button |
| Controller.HandleSave | src/js/main.js:139-167 | a save without a title changes nothing; otherwise the plan is appended and the saved figure equals the stored list's length |
| Controller.InitialInvariant | src/js/storage.js:12-15 | the empty store is well formed and its figure is consistent |
| Controller.SaveKeepsInvariant | src/js/main.js:139-163 | saving keeps every stored plan titled and located, and keeps the saved figure equal to the store's length |
| Controller.BadgeNeverFallsBack | src/js/ui.js:854 | a plan saved through the handler never shows the 'Saved Item' fallback |
| Controller.QuotedNameIsNotSaved | src/js/main.js:148 | a holiday or event whose name starts with a quote reads back with an empty title, so saving it stores nothing |
| Controller.Select | src/js/main.js:203-234 | an empty country code changes nothing; otherwise the selection is replaced with the given fields and the dashboard update sets the saved figure to the store's length |
| Controller.HandleSearchAsWritten | src/js/main.js:197-213 | the selection's country name is the option text with its first word dropped; the saved figure is refreshed from the store |
| Controller.SearchAsWrittenLosesName | src/js/main.js:199 | for an option written from the country list, a one-word name becomes ''; a longer name loses its first word |
| Controller.SaveAfterOneWordSearchIsUnknown | src/js/main.js:145 | after such a search, a saved holiday is located 'Unknown' |
| Controller.HandleSearch | src/js/main.js:197-213 | with the empty-code gate, the selection is replaced wholesale, keeps the option's full text as the name, and the saved figure is refreshed from the store |
| Controller.SearchReplacesSelection | src/js/main.js:209 | the new selection does not depend on the previous one |
| Controller.SearchKeepsInvariant | src/js/main.js:197-234 | searching leaves the store untouched and keeps the saved figure equal to its length |
| Controller.DashboardCalls | src/js/main.js:216-257 | the exact request list: country details, holidays and events always, in that order; then weather and sun times for the capital coordinates when the country data has them; then long weekends whenever a country document exists |
| Controller.FailedDetailsSkipWeather | src/js/main.js:241-252 | when the country service fails, weather and sun times are skipped but long weekends are still fetched |
| Controller.CityChoices | src/js/main.js:169-190 | nothing happens for an empty code; otherwise the choices are the capitals when listed, else none |
| Controller.CountryChangeSelectsFirstCapital | src/js/main.js:179-189 | the city input ends on the first capital, or on the empty 'No cities found' value |
| Controller.PlanCounts | src/js/main.js:278-283 | 'all' is the total; each type count is its exact matches; together with the plans of other types they sum to the total |
| Controller.TypeCountsPartition | src/js/main.js:278-283 | every plan is counted in exactly one of the three types or among the others |
| Controller.CountsAddUpIffKnownTypes | src/js/main.js:278-283 | the three type counts add up to 'all' exactly when no plan has another type |
| Controller.FilterPlans | src/js/main.js:274-296 | 'all', the default, shows every plan; any other filter shows exactly the plans of that type |
| Controller.CountsMatchFilters | src/js/main.js:280-292 | each type count is the length of that type's filtered list, which keeps stored order |
| Controller.RenderMyPlans | src/js/main.js:274-297 | the figures are the number of stored plans and the number of stored plans of each type; with no filter or 'all' every stored plan is listed; with a type, the listed plans are stored plans of that type in stored order, and there are as many as that type's figure shows |
| Controller.HandleDeleteAsWritten | src/js/main.js:259-272 | deletes by the button's string id and refreshes the saved figure |
| Controller.NumericIdSurvivesDeleteAsWritten | src/js/main.js:260-261 | a plan with a numeric id is still stored after a click on its own remove button |
| Controller.UntaggedSaveCannotBeRemovedAsWritten | src/js/main.js:141 | a plan saved from a button without an id cannot be removed |
| Controller.HandleDelete | src/js/main.js:259-272 | removes exactly the plans whose rendered id is the button's id; every other plan stays as often as it was stored; the length drops by the number removed and the saved figure is refreshed |
| Controller.DeleteRemovesClickedPlan | src/js/main.js:259-261 | clicking a plan's remove button removes it; every plan with a different rendered id keeps its multiplicity and the survivors keep their order |
| Controller.DeleteAgreesOnStringIds | src/js/storage.js:19 | on stores with only string ids the corrected delete equals the store's delete |
| Controller.DeleteKeepsInvariant | src/js/main.js:259-271 | deleting keeps the stored plans well formed and the figure consistent |
| Controller.SavedLongWeekendIsRemovable | src/js/ui.js:760 | a long weekend saved from its card can be removed from its plan card |

## Left out

- Network I/O and URL construction: each endpoint gets its outcome as a `Response` value. An unparsable body is folded into `NetworkError`, since both reach the same `catch`. The events call at src/js/main.js:237 passes no country code; the model does not carry it because URLs are not modelled.
- Serialising plans to and from JSON in `localStorage` is left out: the slot holds the plans as stored. Corrupt stored JSON makes `getPlans` throw (src/js/storage.js:14); the model does not cover this failure.
- Clearing all plans and clearing the selection: their handlers call methods that are not defined in the code (src/js/main.js:86, src/js/main.js:102, src/js/ui.js:296), so they are not modelled as operations.
- DOM construction, templates, toasts, sidebar, dropdown open and close, and view switching are left out. The dashboard stats other than the saved figure are left out too.
- Currency conversion, temperature rounding and the random hourly and precipitation values are left out: they rely on floating point and `Math.random`.
- The local time and the day-progress bar are left out: they depend on the clock and on floating point.
- `localeCompare` sorting of the country list and the locale date formatting are left out; both depend on the locale.
- The order in which the dashboard's `await`s finish: only which calls are issued is modelled.
- Ui.ParseOffset: JavaScript computes fractional hours; the model gives whole minutes. `Number()` is modelled for the empty string and for digit strings only. Anything else counts as NaN, so no offset is produced. Whitespace, signs and decimals inside the fields are not modelled.
- Ui.FlagEmoji: requires ASCII input, because upper-casing is modelled for ASCII only.
- Ui.SearchCountries: lower-casing is ASCII-only.
- Text.Lower: maps the ASCII letters A-Z only; JavaScript's full Unicode lower-casing is not modelled.
- Ui.DayLength: takes whole seconds; fractional day lengths are not modelled.
- Ui.Attribute: character references inside attribute values (`&quot;`, `&amp;` and the like) are not decoded; only the closing quote is modelled.
- Ui.HolidayButton: values are read back through Ui.Attribute, so character references in holiday names or dates are kept as written.
- Ui.EventButton: values are read back through Ui.Attribute, so character references in event fields are kept as written.
- Storage.PlanId.Rendered: the remove button's `data-id` (src/js/ui.js:891) is not passed through Ui.Attribute. Ids saved from the cards have already been read back from an attribute, so they hold no quote.
- Controller.Select: the saved figure is read when the search runs; a save that completes while the dashboard's fetches are pending is not interleaved.
- Controller.DashboardCalls: when the country service returns an empty array, the `capitalInfo` read throws after the events call. The model then lists no further calls.
- Text.JsNumber: leading or trailing whitespace, a sign, a decimal point, an exponent and hex, octal or binary prefixes are not modelled; such strings map to None (NaN) although JavaScript's `Number` accepts them. For labels of the form `UTC+hh:mm` the pieces handed to `Number` are plain digit runs, because the sign character is dropped before the split; a label whose pieces carry spaces or decimals would get a value in JavaScript and NaN in the model.

## Findings

| source | as written | input that shows it | evidently intended | confidence | as-written member | corrected member |
|---|---|---|---|---|---|---|
| src/js/main.js:141, src/js/main.js:260-261, src/js/storage.js:19 | a save button without `data-id` stores the plan under the number `Date.now()`. The remove button writes that id into a string attribute, and `deletePlan` compares with strict `!==`. | a plan with id `1700000000000`: clicking its remove button passes `"1700000000000"`, which never equals the number, so the plan stays | remove the plan whose rendered id is the button's id | medium, not executed; the cards shown always give an id, so only id-less buttons reach it | Controller.HandleDeleteAsWritten (shown by Controller.NumericIdSurvivesDeleteAsWritten, Controller.UntaggedSaveCannotBeRemovedAsWritten) | Controller.HandleDelete (proved by Controller.DeleteRemovesClickedPlan) |
| src/js/main.js:199, src/js/ui.js:26 | the country name is the selected option's text with its first word dropped, but the option's text is the bare country name | selecting 'France' stores countryName '' and a saved holiday is located 'Unknown'; 'United Kingdom' stores 'Kingdom' | use the option's text as the country name | high, not executed | Controller.HandleSearchAsWritten (shown by Controller.SearchAsWrittenLosesName, Controller.SaveAfterOneWordSearchIsUnknown) | Controller.HandleSearch (proved by Controller.SearchReplacesSelection) |
