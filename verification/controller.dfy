/** The handlers of the `App` class in src/js/main.js, as pure transitions
    on an explicit application record.

    The clock (`Date.now()`), the DOM inputs and the responses of the remote
    services are parameters; rendering is left to the caller. */
module Controller {
  import opened Wrappers
  import opened Seqs
  import Text
  import opened Storage
  import Api
  import Ui

  /** The selection stored by a search (`this.state`). */
  datatype Selection = Selection(countryCode: string, countryName: string, city: string, year: string)

  /** What the handlers read and write: the selection (absent before the
      first search), the plan store, and the saved-plans figure shown on the
      dashboard (absent until first written). */
  datatype App = App(selection: Option<Selection>, slot: Slot, savedStat: Option<nat>)

  const Initial := App(None, None, None)

  // ---------------------------------------------------------------------
  // Save

  /** The location of a new plan: the button's, else the searched country's
      name, else 'Unknown'; empty strings are skipped. */
  function SaveLocation(btn: Ui.SaveButton, selection: Option<Selection>): (loc: string)
    ensures loc != ""
    ensures Truthy(btn.location) ==> loc == btn.location.value
    ensures !Truthy(btn.location) && selection.Some? && selection.value.countryName != "" ==>
      loc == selection.value.countryName
    ensures !Truthy(btn.location) && (selection.None? || selection.value.countryName == "") ==>
      loc == "Unknown"
  {
    var fromState := if selection.Some? then Some(selection.value.countryName) else None;
    OrElse(btn.location, OrElse(fromState, "Unknown"))
  }

  /** The plan a save button describes; `now` is the `Date.now()` reading
      used when the button has no id. */
  function PlanFromButton(btn: Ui.SaveButton, selection: Option<Selection>, now: nat): (p: Plan)
    ensures Truthy(btn.id) ==> p.id == Str(btn.id.value)
    ensures !Truthy(btn.id) ==> p.id == Num(now)
    ensures p.title == btn.title && p.date == btn.date && p.kind == btn.kind && p.extra == btn.extra
    ensures p.location == Some(SaveLocation(btn, selection))
  {
    var id := if Truthy(btn.id) then Str(btn.id.value) else Num(now);
    Plan(id, btn.title, btn.date, btn.kind, Some(SaveLocation(btn, selection)), btn.extra)
  }

  /** `handleSave`: a button without a (non-empty) title stores nothing;
      otherwise its plan is appended and the saved figure is refreshed from
      the store. */
  function HandleSave(app: App, btn: Ui.SaveButton, now: nat): (app': App)
    ensures !Truthy(btn.title) ==> app' == app
    ensures Truthy(btn.title) ==>
      && GetPlans(app'.slot) == GetPlans(app.slot) + [PlanFromButton(btn, app.selection, now)]
      && app'.savedStat == Some(|GetPlans(app'.slot)|)
    ensures app'.selection == app.selection
  {
    var plan := PlanFromButton(btn, app.selection, now);
    if !Truthy(btn.title) then app
    else
      var slot := SavePlan(app.slot, plan);
      app.(slot := slot, savedStat := Some(|GetPlans(slot)|))
  }

  // ---------------------------------------------------------------------
  // Invariants kept by the handlers

  /** Every stored plan has a title and a location, and a string id is
      never empty. */
  ghost predicate WellFormedPlans(plans: seq<Plan>) {
    forall i :: 0 <= i < |plans| ==>
      Truthy(plans[i].title) && Truthy(plans[i].location) && (plans[i].id.Str? ==> plans[i].id.s != "")
  }

  /** The saved figure, once shown, is the number of stored plans. */
  ghost predicate StatConsistent(app: App) {
    app.savedStat.Some? ==> app.savedStat.value == |GetPlans(app.slot)|
  }

  ghost predicate Invariant(app: App) {
    WellFormedPlans(GetPlans(app.slot)) && StatConsistent(app)
  }

  lemma InitialInvariant()
    ensures Invariant(Initial)
  {
  }

  /** Saving keeps the invariant: only titled, located plans get in, and the
      figure is refreshed. */
  lemma SaveKeepsInvariant(app: App, btn: Ui.SaveButton, now: nat)
    requires Invariant(app)
    ensures Invariant(HandleSave(app, btn, now))
  {
    var app' := HandleSave(app, btn, now);
    if Truthy(btn.title) {
      var s := GetPlans(app.slot);
      var p := PlanFromButton(btn, app.selection, now);
      assert GetPlans(app'.slot) == s + [p];
      forall i | 0 <= i < |s + [p]|
        ensures Truthy((s + [p])[i].title) && Truthy((s + [p])[i].location)
          && ((s + [p])[i].id.Str? ==> (s + [p])[i].id.s != "")
      {
        if i < |s| {
          assert (s + [p])[i] == s[i];
        }
      }
    }
  }

  /** Every plan shown on a card of a well-formed store has an info line
      taken from the plan itself: the 'Saved Item' fallback is never used. */
  lemma BadgeNeverFallsBack(plans: seq<Plan>, i: nat)
    requires WellFormedPlans(plans) && i < |plans|
    ensures Ui.PlanBadge(plans[i]).infoText
      in {OrElse(plans[i].extra, plans[i].location.value), "Public Holiday", "Bridge Day Status"}
  {
  }

  /** A holiday or event whose name starts with a quote has an empty title
      once read back from its save button, so saving it stores nothing. */
  lemma QuotedNameIsNotSaved(app: App, h: Api.Holiday, ev: Api.Event, now: nat)
    requires |h.name| > 0 && h.name[0] == '"'
    requires ev.name.Some? && |ev.name.value| > 0 && ev.name.value[0] == '"'
    ensures HandleSave(app, Ui.HolidayButton(h), now) == app
    ensures HandleSave(app, Ui.EventButton(ev), now) == app
  {
  }

  // ---------------------------------------------------------------------
  // Search

  /** Store a selection, unless the country code is empty. A stored
      selection starts the dashboard update, which shows the number of
      stored plans as the saved figure. */
  function Select(app: App, countryCode: string, countryName: string, city: string, year: string): (app': App)
    ensures countryCode == "" ==> app' == app
    ensures countryCode != "" ==>
      && app'.selection == Some(Selection(countryCode, countryName, city, year))
      && app'.savedStat == Some(|GetPlans(app.slot)|)
    ensures app'.slot == app.slot
  {
    if countryCode == "" then app
    else app.(selection := Some(Selection(countryCode, countryName, city, year)),
              savedStat := Some(|GetPlans(app.slot)|))
  }

  /** `handleSearch` as written: the country name is the selected option's
      text with its first word dropped. */
  function HandleSearchAsWritten(app: App, countryCode: string, optionText: string, city: string, year: string)
    : (app': App)
    ensures countryCode == "" ==> app' == app
    ensures countryCode != "" ==>
      && app'.selection == Some(Selection(countryCode, Text.DropFirstWord(optionText), city, year))
      && app'.savedStat == Some(|GetPlans(app.slot)|)
    ensures app'.slot == app.slot
  {
    Select(app, countryCode, Text.DropFirstWord(optionText), city, year)
  }

  /** With the dropdown filled from the country list, an option's text is
      the bare country name, so a one-word name is lost entirely and a
      longer one loses its first word. */
  lemma SearchAsWrittenLosesName(app: App, country: Api.CountryEntry, city: string, year: string)
    requires country.countryCode != ""
    ensures ' ' !in country.name ==>
      HandleSearchAsWritten(app, country.countryCode, country.name, city, year).selection.value.countryName == ""
    ensures ' ' in country.name ==>
      HandleSearchAsWritten(app, country.countryCode, country.name, city, year).selection.value.countryName
        == country.name[Text.FirstIndexOf(country.name, ' ') + 1..]
  {
    Text.DropFirstWordSpec(country.name);
  }

  /** Consequence: after searching a one-word country, a holiday saved from
      its card is located 'Unknown' instead of in that country. */
  lemma SaveAfterOneWordSearchIsUnknown(app: App, country: Api.CountryEntry, city: string, year: string,
                                        h: Api.Holiday, now: nat)
    requires country.countryCode != "" && ' ' !in country.name
    ensures
      var searched := HandleSearchAsWritten(app, country.countryCode, country.name, city, year);
      PlanFromButton(Ui.HolidayButton(h), searched.selection, now).location == Some("Unknown")
  {
    SearchAsWrittenLosesName(app, country, city, year);
  }

  /** `handleSearch`, corrected: the country name is the selected option's
      text, which is the country's name. */
  function HandleSearch(app: App, countryCode: string, optionText: string, city: string, year: string)
    : (app': App)
    ensures countryCode == "" ==> app' == app
    ensures countryCode != "" ==>
      && app'.selection == Some(Selection(countryCode, optionText, city, year))
      && app'.savedStat == Some(|GetPlans(app.slot)|)
    ensures app'.slot == app.slot
  {
    Select(app, countryCode, optionText, city, year)
  }

  /** A search replaces the selection wholesale: the result does not depend
      on what was selected before, and it names the chosen country. */
  lemma SearchReplacesSelection(a: App, b: App, country: Api.CountryEntry, city: string, year: string)
    requires country.countryCode != ""
    ensures HandleSearch(a, country.countryCode, country.name, city, year).selection
         == HandleSearch(b, country.countryCode, country.name, city, year).selection
    ensures HandleSearch(a, country.countryCode, country.name, city, year).selection.value.countryName
         == country.name
  {
  }

  /** Searching keeps the invariant: the store is untouched and the
      refreshed figure is its length. */
  lemma SearchKeepsInvariant(app: App, countryCode: string, optionText: string, city: string, year: string)
    requires Invariant(app)
    ensures Invariant(HandleSearch(app, countryCode, optionText, city, year))
    ensures Invariant(HandleSearchAsWritten(app, countryCode, optionText, city, year))
  {
  }

  // ---------------------------------------------------------------------
  // Dashboard update after a search

  /** The remote calls `updateDashboard` issues, in the order it awaits them. */
  datatype Call =
    | CountryDetails(code: string)
    | Holidays(year: string, code: string)
    | Events(city: string)
    | Weather(lat: Option<real>, lon: Option<real>)
    | SunTimes(lat: Option<real>, lon: Option<real>)
    | LongWeekends(year: string, code: string)

  /** `[lat, lon]` destructured from an array that may be short. */
  function Coordinate(latlng: seq<real>, i: nat): Option<real> {
    if i < |latlng| then Some(latlng[i]) else None
  }

  /** The calls issued for a selection, given the country document the first
      call produced. Weather and sun times need `capitalInfo.latlng`. A
      missing document (an empty result array) makes the `capitalInfo`
      read throw, so nothing after the events call is issued. */
  function DashboardCalls(sel: Selection, details: Option<Api.CountryDoc>): (calls: seq<Call>)
    ensures |calls| >= 3
    ensures calls[..3] == [CountryDetails(sel.countryCode), Holidays(sel.year, sel.countryCode), Events(sel.city)]
    ensures details.None? ==> |calls| == 3
    ensures details.Some? && details.value.latlng.Some? ==>
      var ll := details.value.latlng.value;
      calls[3..] == [Weather(Coordinate(ll, 0), Coordinate(ll, 1)), SunTimes(Coordinate(ll, 0), Coordinate(ll, 1)),
                     LongWeekends(sel.year, sel.countryCode)]
    ensures details.Some? && details.value.latlng.None? ==> calls[3..] == [LongWeekends(sel.year, sel.countryCode)]
    ensures (exists i :: 0 <= i < |calls| && calls[i].Weather?) <==> details.Some? && details.value.latlng.Some?
    ensures (exists i :: 0 <= i < |calls| && calls[i].SunTimes?) <==> details.Some? && details.value.latlng.Some?
    ensures (exists i :: 0 <= i < |calls| && calls[i].LongWeekends?) <==> details.Some?
  {
    var always := [CountryDetails(sel.countryCode), Holidays(sel.year, sel.countryCode), Events(sel.city)];
    match details
    case None => always
    case Some(doc) =>
      var located :=
        match doc.latlng
        case Some(ll) => [Weather(Coordinate(ll, 0), Coordinate(ll, 1)), SunTimes(Coordinate(ll, 0), Coordinate(ll, 1))]
        case None => [];
      var calls := always + located + [LongWeekends(sel.year, sel.countryCode)];
      assert calls[3..] == located + [LongWeekends(sel.year, sel.countryCode)];
      assert calls[|calls| - 1].LongWeekends?;
      if doc.latlng.Some? then
        assert calls[3].Weather? && calls[4].SunTimes?;
        calls
      else
        assert calls == always + [LongWeekends(sel.year, sel.countryCode)];
        calls
  }

  /** When the country service fails, the `{}` fallback has no coordinates:
      the weather and sun-time calls are skipped but the long weekends are
      still fetched. */
  lemma FailedDetailsSkipWeather(sel: Selection, r: Api.Response<seq<Api.CountryDoc>>)
    requires !r.Ok?
    ensures var calls := DashboardCalls(sel, Api.FetchCountryDetails(r));
      && (forall i :: 0 <= i < |calls| ==> !calls[i].Weather? && !calls[i].SunTimes?)
      && (exists i :: 0 <= i < |calls| && calls[i].LongWeekends?)
  {
    var calls := DashboardCalls(sel, Api.FetchCountryDetails(r));
    assert calls[3].LongWeekends?;
  }

  // ---------------------------------------------------------------------
  // Country change

  /** `handleCountryChange`: nothing happens for an empty code; otherwise the
      city choices are the country's capitals when it lists any, else none. */
  function CityChoices(countryCode: string, details: Option<Api.CountryDoc>): (r: Option<seq<string>>)
    ensures countryCode == "" <==> r.None?
    ensures countryCode != "" && details.Some? && details.value.capital.Some? ==>
      r == Some(details.value.capital.value)
    ensures countryCode != "" && (details.None? || details.value.capital.None?) ==> r == Some([])
  {
    if countryCode == "" then None
    else if details.Some? && details.value.capital.Some? then Some(details.value.capital.value)
    else Some([])
  }

  /** After a country change the city input holds the first capital, or
      the empty value of the 'No cities found' option. */
  lemma CountryChangeSelectsFirstCapital(countryCode: string, details: Option<Api.CountryDoc>)
    requires countryCode != ""
    ensures var options := Ui.CityOptions(CityChoices(countryCode, details).value);
      && (details.Some? && details.value.capital.Some? && |details.value.capital.value| > 0 ==>
            options[0].value == details.value.capital.value[0])
      && (details.None? || details.value.capital.None? || |details.value.capital.value| == 0 ==>
            options[0].value == "")
  {
  }

  // ---------------------------------------------------------------------
  // My-plans view

  datatype Counts = Counts(all: nat, holiday: nat, event: nat, longweekend: nat)

  /** `p.type === t` */
  function HasType(t: string): Plan -> bool {
    (p: Plan) => p.kind == Some(t)
  }

  /** A plan of none of the three known types. */
  predicate OtherType(p: Plan) {
    p.kind !in {Some("holiday"), Some("event"), Some("longweekend")}
  }

  /** The filter counts: the total, and the exact matches of each known type;
      plans of other types only count toward the total. */
  function PlanCounts(plans: seq<Plan>): (c: Counts)
    ensures c.all == |plans|
    ensures c.holiday == Count(plans, HasType("holiday"))
    ensures c.event == Count(plans, HasType("event"))
    ensures c.longweekend == Count(plans, HasType("longweekend"))
    ensures c.holiday + c.event + c.longweekend + Count(plans, OtherType) == c.all
  {
    TypeCountsPartition(plans);
    Counts(|plans|, |Filter(plans, HasType("holiday"))|, |Filter(plans, HasType("event"))|,
      |Filter(plans, HasType("longweekend"))|)
  }

  /** Every plan is counted under exactly one of the four groups. */
  lemma {:induction false} TypeCountsPartition(plans: seq<Plan>)
    ensures |Filter(plans, HasType("holiday"))| == Count(plans, HasType("holiday"))
    ensures |Filter(plans, HasType("event"))| == Count(plans, HasType("event"))
    ensures |Filter(plans, HasType("longweekend"))| == Count(plans, HasType("longweekend"))
    ensures Count(plans, HasType("holiday")) + Count(plans, HasType("event"))
      + Count(plans, HasType("longweekend")) + Count(plans, OtherType) == |plans|
    decreases |plans|
  {
    FilterLength(plans, HasType("holiday"));
    FilterLength(plans, HasType("event"));
    FilterLength(plans, HasType("longweekend"));
    if |plans| > 0 {
      TypeCountsPartition(plans[1..]);
    }
  }

  /** The per-type counts add up to the total exactly when every plan has one
      of the three known types. */
  lemma CountsAddUpIffKnownTypes(plans: seq<Plan>)
    ensures var c := PlanCounts(plans);
      c.holiday + c.event + c.longweekend == c.all <==> forall i :: 0 <= i < |plans| ==> !OtherType(plans[i])
  {
    NoneCountedIffNoneMatch(plans);
  }

  lemma {:induction false} NoneCountedIffNoneMatch(plans: seq<Plan>)
    ensures Count(plans, OtherType) == 0 <==> forall i :: 0 <= i < |plans| ==> !OtherType(plans[i])
    decreases |plans|
  {
    if |plans| > 0 {
      NoneCountedIffNoneMatch(plans[1..]);
      assert forall i :: 1 <= i < |plans| ==> plans[i] == plans[1..][i - 1];
    }
  }

  /** The list shown for a filter: everything for 'all' (also the default
      when no filter is given), otherwise the plans of exactly that type in
      stored order. */
  function FilterPlans(plans: seq<Plan>, filter: Option<string>): (r: seq<Plan>)
    ensures filter.None? || filter == Some("all") ==> r == plans
    ensures filter.Some? && filter != Some("all") ==>
      forall p :: p in r <==> p in plans && p.kind == filter
  {
    match filter
    case None => plans
    case Some(f) => if f == "all" then plans else Filter(plans, HasType(f))
  }

  /** Each per-type count is the length of that type's filtered list, and
      filtering keeps the stored order. */
  lemma CountsMatchFilters(plans: seq<Plan>, t: string)
    requires t != "all"
    ensures |FilterPlans(plans, Some(t))| == Count(plans, HasType(t))
    ensures SubsequenceOf(FilterPlans(plans, Some(t)), plans)
  {
    FilterLength(plans, HasType(t));
    FilterIsSubsequence(plans, HasType(t));
  }

  /** `renderMyPlansView`: the filter counts and the list shown. With no
      filter or 'all' the whole store is listed; with a type, the listed
      plans are the stored plans of that type in stored order, and their
      number is the count shown on that type's filter. */
  function RenderMyPlans(app: App, filter: Option<string>): (view: (Counts, seq<Plan>))
    ensures view.0.all == |GetPlans(app.slot)|
    ensures view.0.holiday + view.0.event + view.0.longweekend <= view.0.all
    ensures filter.None? || filter == Some("all") ==> view.1 == GetPlans(app.slot)
    ensures filter.Some? && filter != Some("all") ==>
      && (forall i :: 0 <= i < |view.1| ==> view.1[i] in GetPlans(app.slot) && view.1[i].kind == filter)
      && |view.1| == Count(GetPlans(app.slot), HasType(filter.value))
      && SubsequenceOf(view.1, GetPlans(app.slot))
    ensures filter == Some("holiday") ==> |view.1| == view.0.holiday
    ensures filter == Some("event") ==> |view.1| == view.0.event
    ensures filter == Some("longweekend") ==> |view.1| == view.0.longweekend
    ensures view.0.holiday == Count(GetPlans(app.slot), HasType("holiday"))
    ensures view.0.event == Count(GetPlans(app.slot), HasType("event"))
    ensures view.0.longweekend == Count(GetPlans(app.slot), HasType("longweekend"))
  {
    var plans := GetPlans(app.slot);
    assert filter.Some? && filter != Some("all") ==>
      |FilterPlans(plans, filter)| == Count(plans, HasType(filter.value))
      && SubsequenceOf(FilterPlans(plans, filter), plans) by {
      if filter.Some? && filter != Some("all") {
        CountsMatchFilters(plans, filter.value);
      }
    }
    (PlanCounts(plans), FilterPlans(plans, filter))
  }

  // ---------------------------------------------------------------------
  // Delete

  /** `handleDelete` as written: the remove button's `data-id` is a string,
      and the store deletes by strict equality with it. */
  function HandleDeleteAsWritten(app: App, buttonId: string): (app': App)
    ensures GetPlans(app'.slot) == GetPlans(DeletePlan(app.slot, Str(buttonId)))
    ensures app'.savedStat == Some(|GetPlans(app'.slot)|)
    ensures app'.selection == app.selection
  {
    var slot := DeletePlan(app.slot, Str(buttonId));
    app.(slot := slot, savedStat := Some(|GetPlans(slot)|))
  }

  /** A plan stored under a timestamp id survives a click on its own remove
      button: the button carries the id's digits as a string, and a string is
      never strictly equal to a number. */
  lemma NumericIdSurvivesDeleteAsWritten(app: App, p: Plan)
    requires p in GetPlans(app.slot) && p.id.Num?
    ensures p in GetPlans(HandleDeleteAsWritten(app, p.id.Rendered()).slot)
  {
  }

  /** A save without a button id followed by a click on the new plan's
      remove button leaves the plan in the store. */
  lemma UntaggedSaveCannotBeRemovedAsWritten(app: App, btn: Ui.SaveButton, now: nat)
    requires Truthy(btn.title) && !Truthy(btn.id)
    ensures var saved := HandleSave(app, btn, now);
      var p := PlanFromButton(btn, app.selection, now);
      && p in GetPlans(saved.slot)
      && p in GetPlans(HandleDeleteAsWritten(saved, p.id.Rendered()).slot)
  {
    var saved := HandleSave(app, btn, now);
    var p := PlanFromButton(btn, app.selection, now);
    assert GetPlans(saved.slot)[|GetPlans(app.slot)|] == p;
    NumericIdSurvivesDeleteAsWritten(saved, p);
  }

  /** `p` is kept unless its id is written out as `buttonId`. */
  function RenderedIsNot(buttonId: string): Plan -> bool {
    (p: Plan) => p.id.Rendered() != buttonId
  }

  /** `p`'s id is written out as `buttonId`. */
  function RenderedIs(buttonId: string): Plan -> bool {
    (p: Plan) => p.id.Rendered() == buttonId
  }

  /** `handleDelete`, corrected: remove the plans whose id, as written into
      the remove button, is the clicked button's id; every other plan stays
      as often as it was stored. */
  function HandleDelete(app: App, buttonId: string): (app': App)
    ensures forall p :: p in GetPlans(app'.slot) <==> p in GetPlans(app.slot) && p.id.Rendered() != buttonId
    ensures forall p ::
      multiset(GetPlans(app'.slot))[p] == (if p.id.Rendered() != buttonId then multiset(GetPlans(app.slot))[p] else 0)
    ensures |GetPlans(app'.slot)| == |GetPlans(app.slot)| - Count(GetPlans(app.slot), RenderedIs(buttonId))
    ensures app'.savedStat == Some(|GetPlans(app'.slot)|)
    ensures app'.selection == app.selection
  {
    var plans := GetPlans(app.slot);
    FilterMultiset(plans, RenderedIsNot(buttonId));
    FilterPlusCount(plans, RenderedIsNot(buttonId), RenderedIs(buttonId));
    var slot := Some(Filter(plans, RenderedIsNot(buttonId)));
    app.(slot := slot, savedStat := Some(|GetPlans(slot)|))
  }

  /** Clicking a plan's remove button removes that plan and every plan
      whose id renders the same, whatever the kind of its id; every other
      plan stays, as often as it was stored and in the same order. */
  lemma DeleteRemovesClickedPlan(app: App, p: Plan)
    requires p in GetPlans(app.slot)
    ensures var after := GetPlans(HandleDelete(app, p.id.Rendered()).slot);
      && p !in after
      && |after| == |GetPlans(app.slot)| - Count(GetPlans(app.slot), RenderedIs(p.id.Rendered()))
      && (forall q: Plan :: q.id.Rendered() != p.id.Rendered() ==> multiset(after)[q] == multiset(GetPlans(app.slot))[q])
      && SubsequenceOf(after, GetPlans(app.slot))
  {
    FilterIsSubsequence(GetPlans(app.slot), RenderedIsNot(p.id.Rendered()));
  }

  /** For string ids the corrected delete is the store's own delete. */
  lemma DeleteAgreesOnStringIds(app: App, buttonId: string)
    requires forall i :: 0 <= i < |GetPlans(app.slot)| ==> GetPlans(app.slot)[i].id.Str?
    ensures HandleDelete(app, buttonId) == HandleDeleteAsWritten(app, buttonId)
  {
    SameFilterOnStringIds(GetPlans(app.slot), buttonId);
  }

  lemma {:induction false} SameFilterOnStringIds(plans: seq<Plan>, buttonId: string)
    requires forall i :: 0 <= i < |plans| ==> plans[i].id.Str?
    ensures Filter(plans, RenderedIsNot(buttonId)) == Filter(plans, LacksId(Str(buttonId)))
    decreases |plans|
  {
    if |plans| > 0 {
      SameFilterOnStringIds(plans[1..], buttonId);
    }
  }

  /** Deleting keeps the invariant. */
  lemma DeleteKeepsInvariant(app: App, buttonId: string)
    requires Invariant(app)
    ensures Invariant(HandleDelete(app, buttonId))
    ensures Invariant(HandleDeleteAsWritten(app, buttonId))
  {
    FilterKeepsWellFormed(GetPlans(app.slot), RenderedIsNot(buttonId));
    FilterKeepsWellFormed(GetPlans(app.slot), LacksId(Str(buttonId)));
  }

  /** Any filter of a well-formed list is well formed. */
  lemma FilterKeepsWellFormed(plans: seq<Plan>, keep: Plan -> bool)
    requires WellFormedPlans(plans)
    ensures WellFormedPlans(Filter(plans, keep))
  {
    var r := Filter(plans, keep);
    forall i | 0 <= i < |r|
      ensures Truthy(r[i].title) && Truthy(r[i].location) && (r[i].id.Str? ==> r[i].id.s != "")
    {
      assert r[i] in r;
      var j :| 0 <= j < |plans| && plans[j] == r[i];
    }
  }

  /** A long weekend saved from its card can be removed from its plan card:
      its id is a string, so even the strict comparison finds it. */
  lemma SavedLongWeekendIsRemovable(app: App, index: nat, year: string, lw: Api.LongWeekend,
                                    startStr: string, endStr: string, now: nat)
    ensures
      var btn := Ui.LongWeekendButton(index, year, lw, startStr, endStr);
      var saved := HandleSave(app, btn, now);
      var p := PlanFromButton(btn, app.selection, now);
      && p in GetPlans(saved.slot)
      && p !in GetPlans(HandleDeleteAsWritten(saved, p.id.Rendered()).slot)
  {
    var btn := Ui.LongWeekendButton(index, year, lw, startStr, endStr);
    var saved := HandleSave(app, btn, now);
    var p := PlanFromButton(btn, app.selection, now);
    assert Truthy(btn.title) && Truthy(btn.id);
    assert GetPlans(saved.slot)[|GetPlans(app.slot)|] == p;
  }
}
