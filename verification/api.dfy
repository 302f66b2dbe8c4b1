/** The remote-data layer of src/js/api.js.

    Each endpoint wraps one `fetch` in a try/catch. The network is not
    modelled: an endpoint receives the outcome of its request as a
    `Response`, and the model states what the endpoint returns for it. */
module Api {
  import opened Wrappers
  import opened Seqs
  import Text

  /** Outcome of one request: an ok response whose JSON body parsed, a
      response whose `ok` flag is false (status outside 200-299), or a
      failure that never produced a usable response (network or CORS error,
      unparsable body). */
  datatype Response<T> = Ok(body: T) | HttpStatus(status: int) | NetworkError

  // ---------------------------------------------------------------------
  // Response bodies, reduced to the fields the application reads

  datatype LongWeekend = LongWeekend(startDate: string, endDate: string, dayCount: int, needBridgeDay: bool)
  datatype Holiday = Holiday(date: string, localName: Option<string>, name: string, countryCode: string)
  datatype CountryEntry = CountryEntry(countryCode: string, name: string)

  /** International dialling prefix of a country document. */
  datatype Idd = Idd(root: Option<string>, suffixes: Option<seq<string>>)

  /** A country document; `latlng` is present when `capitalInfo.latlng` is. */
  datatype CountryDoc = CountryDoc(
    capital: Option<seq<string>>,
    latlng: Option<seq<real>>,
    idd: Option<Idd>,
    timezones: Option<seq<string>>)

  /** The `{}` returned when country details cannot be fetched. */
  const EmptyDoc := CountryDoc(None, None, None, None)

  // ---------------------------------------------------------------------
  // Endpoints with a fixed fallback

  /** The policy of `fetchLongWeekends` (`seq<LongWeekend>`), `fetchCountries`
      (`seq<CountryEntry>`) and `fetchHolidays` (`seq<Holiday>`): the body on
      success, `[]` on a non-ok status or any error. Callers cannot tell a
      failure from a successful empty answer. */
  function ListOrEmpty<T>(r: Response<seq<T>>): (out: seq<T>)
    ensures r.Ok? ==> out == r.body
    ensures !r.Ok? ==> out == []
    ensures out == [] <==> !r.Ok? || r.body == []
  {
    match r
    case Ok(body) => body
    case _ => []
  }

  /** The policy of `fetchSunTimes`, `fetchExchangeRates` and
      `fetchWeather`, whatever the body's shape: the body on success, `null`
      on a non-ok status or any error. */
  function BodyOrNull<T>(r: Response<T>): (out: Option<T>)
    ensures r.Ok? ==> out == Some(r.body)
    ensures !r.Ok? ==> out == None
    ensures out.None? <==> !r.Ok?
  {
    match r
    case Ok(body) => Some(body)
    case _ => None
  }

  /** `fetchCountryDetails`: the first element of the returned array, `{}` on
      any failure. An ok response with an empty array yields `undefined`
      (`None`). */
  function FetchCountryDetails(r: Response<seq<CountryDoc>>): (out: Option<CountryDoc>)
    ensures r.Ok? && |r.body| > 0 ==> out == Some(r.body[0])
    ensures r.Ok? && |r.body| == 0 ==> out == None
    ensures !r.Ok? ==> out == Some(EmptyDoc)
  {
    match r
    case Ok(body) => if |body| > 0 then Some(body[0]) else None
    case _ => Some(EmptyDoc)
  }


  // ---------------------------------------------------------------------
  // Events

  /** First classification of a raw event; `name` of each level, if any. */
  datatype Classification = Classification(segment: Option<string>, genre: Option<string>, subGenre: Option<string>)
  datatype Image = Image(ratio: Option<string>, width: Option<int>, url: Option<string>)

  /** A raw event record. `venueName` is `_embedded.venues[0].name`,
      `placeCity` is `place.city.name`, `localDate` is
      `dates.start.localDate`; each is absent when any step is missing. */
  datatype RawEvent = RawEvent(
    id: Option<string>,
    name: Option<string>,
    classifications: Option<seq<Classification>>,
    images: Option<seq<Image>>,
    venueName: Option<string>,
    placeCity: Option<string>,
    localDate: Option<string>)

  /** The parsed response body; `events` is `_embedded.events`, absent when
      either step is missing. */
  datatype EventsBody = EventsBody(events: Option<seq<RawEvent>>)

  /** A normalised event, as the rest of the application consumes it. */
  datatype Event = Event(
    id: Option<string>,
    name: Option<string>,
    date: string,
    image: Option<string>,
    category: string,
    location: string)

  const PlaceholderImage := "https://via.placeholder.com/400x200?text=No+Image"

  /** Category: the first classification's segment, genre or sub-genre
      name, the first of them that is non-empty, else 'Event'. */
  function Category(e: RawEvent): (r: string)
    ensures r != ""
    ensures (e.classifications.None? || |e.classifications.value| == 0) ==> r == "Event"
    ensures e.classifications.Some? && |e.classifications.value| > 0 ==>
      var c := e.classifications.value[0];
      && (Truthy(c.segment) ==> r == c.segment.value)
      && (!Truthy(c.segment) && Truthy(c.genre) ==> r == c.genre.value)
      && (!Truthy(c.segment) && !Truthy(c.genre) && Truthy(c.subGenre) ==> r == c.subGenre.value)
      && (!Truthy(c.segment) && !Truthy(c.genre) && !Truthy(c.subGenre) ==> r == "Event")
  {
    if e.classifications.Some? && |e.classifications.value| > 0 then
      var c := e.classifications.value[0];
      OrElse(c.segment, OrElse(c.genre, OrElse(c.subGenre, "Event")))
    else "Event"
  }

  /** An image is preferred when its ratio is '16_9' and it is at least 500
      pixels wide. */
  predicate IsPreferred(img: Image) {
    img.ratio == Some("16_9") && img.width.Some? && img.width.value >= 500
  }

  /** Image: the url of the first preferred image, else of the first image,
      else the placeholder. */
  function ImageUrl(e: RawEvent): (r: Option<string>)
    ensures (e.images.None? || |e.images.value| == 0) ==> r == Some(PlaceholderImage)
    ensures e.images.Some? && |e.images.value| > 0 ==>
      var imgs := e.images.value;
      || (exists k :: 0 <= k < |imgs| && IsPreferred(imgs[k])
            && (forall j :: 0 <= j < k ==> !IsPreferred(imgs[j])) && r == imgs[k].url)
      || ((forall j :: 0 <= j < |imgs| ==> !IsPreferred(imgs[j])) && r == imgs[0].url)
  {
    if e.images.Some? && |e.images.value| > 0 then
      var imgs := e.images.value;
      match FindIndex(imgs, IsPreferred)
      case Some(k) => imgs[k].url
      case None => imgs[0].url
    else Some(PlaceholderImage)
  }

  /** Location: the first venue's name, else the place's city name, else the
      searched city, else 'Unknown Venue'; empty names are skipped. */
  function EventLocation(e: RawEvent, city: string): (r: string)
    ensures r != ""
    ensures Truthy(e.venueName) ==> r == e.venueName.value
    ensures !Truthy(e.venueName) && Truthy(e.placeCity) ==> r == e.placeCity.value
    ensures !Truthy(e.venueName) && !Truthy(e.placeCity) ==>
      r == (if city != "" then city else "Unknown Venue")
  {
    var fallback := OrElse(Some(city), "Unknown Venue");
    if Truthy(e.venueName) then e.venueName.value
    else if Truthy(e.placeCity) then e.placeCity.value
    else fallback
  }

  /** One raw event mapped to the shape the views consume. */
  function Normalise(e: RawEvent, city: string): (ev: Event)
    ensures ev.id == e.id && ev.name == e.name
    ensures ev.date == (if Truthy(e.localDate) then e.localDate.value else "TBD")
    ensures ev.category == Category(e) && ev.image == ImageUrl(e)
    ensures ev.location == EventLocation(e, city)
  {
    Event(e.id, e.name, OrElse(e.localDate, "TBD"), ImageUrl(e), Category(e), EventLocation(e, city))
  }

  /** The fixed sample events, with their default locations. */
  const MockCatalogue: seq<Event> := [
    Event(Some("mock-1"), Some("Summer Music Festival"), "2026-03-15",
      Some("https://images.unsplash.com/photo-1470229722913-7c0e2dbbafd3?w=400"), "Music", "Local Venue"),
    Event(Some("mock-2"), Some("International Football Match"), "2026-04-02",
      Some("https://images.unsplash.com/photo-1574629810360-7efbbe195018?w=400"), "Sports", "Stadium"),
    Event(Some("mock-3"), Some("Broadway: The Lion King"), "2026-03-20",
      Some("https://images.unsplash.com/photo-1507676184212-d03ab07a01bf?w=400"), "Arts & Theatre", "Grand Theatre"),
    Event(Some("mock-4"), Some("Family Fun Carnival"), "2026-05-01",
      Some("https://images.unsplash.com/photo-1513151233558-d860c5398176?w=400"), "Family", "City Park"),
    Event(Some("mock-5"), Some("Jazz Night Live"), "2026-03-28",
      Some("https://images.unsplash.com/photo-1511192336575-5a79af67a629?w=400"), "Music", "Jazz Club"),
    Event(Some("mock-6"), Some("Basketball Championship"), "2026-04-10",
      Some("https://images.unsplash.com/photo-1546519638-68e109498ffc?w=400"), "Sports", "Arena")
  ]

  /** `getMockEvents`: the six sample events, located in `city` when it is
      non-empty and at each sample's own default venue otherwise. */
  function MockEvents(city: string): (r: seq<Event>)
    ensures |r| == 6
    ensures forall i :: 0 <= i < 6 ==> r[i].id == Some("mock-" + Text.NatToString(i + 1))
    ensures forall i :: 0 <= i < 6 ==>
      r[i].location == (if city != "" then city else MockCatalogue[i].location)
    ensures forall i :: 0 <= i < 6 ==>
      r[i].name == MockCatalogue[i].name && r[i].date == MockCatalogue[i].date
      && r[i].image == MockCatalogue[i].image && r[i].category == MockCatalogue[i].category
  {
    MockIdsAreNumbered();
    seq(6, i requires 0 <= i < 6 => MockCatalogue[i].(location := OrElse(Some(city), MockCatalogue[i].location)))
  }

  /** The sample ids are 'mock-1' to 'mock-6', in order. */
  lemma MockIdsAreNumbered()
    ensures forall i :: 0 <= i < 6 ==> MockCatalogue[i].id == Some("mock-" + Text.NatToString(i + 1))
  {
    forall i | 0 <= i < 6
      ensures MockCatalogue[i].id == Some("mock-" + Text.NatToString(i + 1))
    {
      var d := Text.DigitChar(i + 1);
      assert Text.NatToString(i + 1) == [d];
      assert d as int == '0' as int + i + 1;
      if i == 0 { assert d == '1'; assert "mock-" + [d] == "mock-1"; }
      else if i == 1 { assert d == '2'; assert "mock-" + [d] == "mock-2"; }
      else if i == 2 { assert d == '3'; assert "mock-" + [d] == "mock-3"; }
      else if i == 3 { assert d == '4'; assert "mock-" + [d] == "mock-4"; }
      else if i == 4 { assert d == '5'; assert "mock-" + [d] == "mock-5"; }
      else { assert d == '6'; assert "mock-" + [d] == "mock-6"; }
    }
  }

  /** `fetchEvents` never fails outward: on a 401 or 403 (missing or
      rejected key), on any other non-ok status and on a network error it
      falls back to the sample list, and so it does when the body has no
      `_embedded.events`. Otherwise each raw event is normalised, in order. */
  function FetchEvents(r: Response<EventsBody>, city: string): (out: seq<Event>)
    ensures !r.Ok? ==> out == MockEvents(city)
    ensures r.Ok? && r.body.events.None? ==> out == MockEvents(city)
    ensures r.Ok? && r.body.events.Some? ==>
      |out| == |r.body.events.value|
      && forall i :: 0 <= i < |out| ==> out[i] == Normalise(r.body.events.value[i], city)
  {
    // A 401 or 403 returns the samples directly; any other status throws
    // and the catch returns the same samples.
    match r
    case NetworkError => MockEvents(city)
    case HttpStatus(_) => MockEvents(city)
    case Ok(body) =>
      match body.events
      case None => MockEvents(city)
      case Some(evs) => seq(|evs|, i requires 0 <= i < |evs| => Normalise(evs[i], city))
  }

  /** Every event the views receive has a non-empty date, category and
      location, whatever the endpoint returned. */
  lemma EventsAreComplete(r: Response<EventsBody>, city: string)
    ensures forall ev :: ev in FetchEvents(r, city) ==> ev.date != "" && ev.category != "" && ev.location != ""
  {
    var out := FetchEvents(r, city);
    if !r.Ok? || r.body.events.None? {
      forall i | 0 <= i < 6 ensures out[i].date != "" && out[i].category != "" && out[i].location != "" {
        assert MockCatalogue[i].date != "" && MockCatalogue[i].category != "" && MockCatalogue[i].location != "";
      }
    }
  }
}
