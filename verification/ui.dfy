/** The pure decisions embedded in the rendering code of src/js/ui.js.

    Only what a function computes is modelled; the HTML it writes is not. */
module Ui {
  import opened Wrappers
  import opened Seqs
  import Text
  import Api
  import Storage

  // ---------------------------------------------------------------------
  // Weather codes (WMO codes as reported by Open-Meteo)

  datatype WeatherInfo = WeatherInfo(icon: string, desc: string, kind: string)

  const ClearSky := WeatherInfo("fa-sun", "Clear sky", "weather-sunny")
  const PartlyCloudy := WeatherInfo("fa-cloud-sun", "Partly cloudy", "weather-cloudy")
  const Cloudy := WeatherInfo("fa-cloud", "Cloudy", "weather-cloudy")
  const LightRain := WeatherInfo("fa-cloud-rain", "Light rain", "weather-rainy")
  const Rain := WeatherInfo("fa-cloud-showers-heavy", "Rain", "weather-rainy")
  const Snow := WeatherInfo("fa-snowflake", "Snow", "weather-snowy")
  const Thunderstorm := WeatherInfo("fa-cloud-bolt", "Thunderstorm", "weather-stormy")
  const UnknownCode := WeatherInfo("fa-cloud", "Cloudy", "weather-default")

  /** `getWeatherInfo`: each bucket is an interval of codes; every code
      at or below 3 other than 0 (negative ones included) reads as partly
      cloudy, and codes above 99 look cloudy but keep the default style. */
  function WeatherFor(code: int): (r: WeatherInfo)
    ensures r == ClearSky <==> code == 0
    ensures r == PartlyCloudy <==> code < 0 || 1 <= code <= 3
    ensures r == Cloudy <==> 4 <= code <= 49
    ensures r == LightRain <==> 50 <= code <= 59
    ensures r == Rain <==> 60 <= code <= 69
    ensures r == Snow <==> 70 <= code <= 79
    ensures r == Thunderstorm <==> 80 <= code <= 99
    ensures r == UnknownCode <==> code > 99
  {
    if code == 0 then ClearSky
    else if code <= 3 then PartlyCloudy
    else if code <= 49 then Cloudy
    else if code <= 59 then LightRain
    else if code <= 69 then Rain
    else if code <= 79 then Snow
    else if code <= 99 then Thunderstorm
    else UnknownCode
  }

  // ---------------------------------------------------------------------
  // UTC offsets, in minutes

  /** The offset of a timezone label such as 'UTC+02:00', in minutes.
      'UTC' is 0. Otherwise the first three characters are skipped, a
      leading '-' makes the sign negative, the character after them is
      skipped, and the rest is split at ':' into hours and minutes. The sign
      applies to the minutes too. Minutes that are missing or not a number
      count as 0; hours that are not a number make the offset NaN (None). */
  function ParseOffset(tz: string): (r: Option<int>)
    ensures tz == "UTC" ==> r == Some(0)
    ensures |tz| <= 4 ==> r == Some(0)
  {
    if tz == "UTC" then Some(0)
    else ParseModifier(if |tz| >= 3 then tz[3..] else "")
  }

  /** The part after 'UTC': sign character, then hours and minutes. A
      leading '-' gives a negative offset (or zero), anything else in that
      position a positive one; with nothing after the sign character the
      hours are `Number('')`, which is 0. */
  function ParseModifier(modifier: string): (r: Option<int>)
    ensures r.Some? && |modifier| > 0 && modifier[0] == '-' ==> r.value <= 0
    ensures r.Some? && !(|modifier| > 0 && modifier[0] == '-') ==> r.value >= 0
    ensures |modifier| <= 1 ==> r == Some(0)
  {
    var sign := if |modifier| > 0 && modifier[0] == '-' then -1 else 1;
    ParseClock(sign, Text.Split(if |modifier| >= 1 then modifier[1..] else "", ':'))
  }

  /** Hours and minutes from the ':'-separated pieces: NaN (None) exactly
      when the hours are not a number; minutes that are missing or not a
      number count as 0, and pieces after the minutes are ignored. */
  function ParseClock(sign: int, parts: seq<string>): (r: Option<int>)
    requires |parts| >= 1
    ensures r.Some? <==> Text.AllDigits(parts[0])
    ensures r.Some? && |parts| >= 2 && Text.AllDigits(parts[1]) ==>
      r.value == sign * (Text.DigitsValue(parts[0]) * 60 + Text.DigitsValue(parts[1]))
    ensures r.Some? && (|parts| == 1 || !Text.AllDigits(parts[1])) ==>
      r.value == sign * (Text.DigitsValue(parts[0]) * 60)
  {
    match Text.JsNumber(parts[0])
    case None => None
    case Some(hours) =>
      var mins := if |parts| >= 2 then Text.JsNumber(parts[1]).GetOr(0) else 0;
      Some(sign * (hours * 60 + mins))
  }

  /** A well-formed label 'UTC±HH:MM' has offset ±(HH·60 + MM). */
  lemma ParseOffsetWellFormed(sign: char, hh: string, mm: string)
    requires sign == '+' || sign == '-'
    requires Text.AllDigits(hh) && Text.AllDigits(mm)
    ensures ParseOffset("UTC" + [sign] + hh + ":" + mm)
      == Some((if sign == '-' then -1 else 1) * (Text.DigitsValue(hh) * 60 + Text.DigitsValue(mm)))
  {
    var clock := hh + [':'] + mm;
    var modifier := [sign] + clock;
    assert "UTC" + [sign] + hh + ":" + mm == "UTC" + modifier;
    ParseOffsetSkipsPrefix(modifier);
    ClockSplits(hh, mm);
    assert modifier[1..] == clock;
    ParseClockTwoParts(if sign == '-' then -1 else 1, hh, mm);
  }

  /** 'HH:MM' splits into its hours and minutes. */
  lemma ClockSplits(hh: string, mm: string)
    requires Text.AllDigits(hh) && Text.AllDigits(mm)
    ensures Text.Split(hh + [':'] + mm, ':') == [hh, mm]
  {
    NoColonInDigits(hh);
    NoColonInDigits(mm);
    Text.SplitAtFirst(hh, ':', mm);
    Text.SplitNoSeparator(mm, ':');
  }

  lemma ParseClockTwoParts(sign: int, hh: string, mm: string)
    requires Text.AllDigits(hh) && Text.AllDigits(mm)
    ensures ParseClock(sign, [hh, mm]) == Some(sign * (Text.DigitsValue(hh) * 60 + Text.DigitsValue(mm)))
  {
  }

  /** Any label other than 'UTC' is read from its fourth character on. */
  lemma ParseOffsetSkipsPrefix(modifier: string)
    requires |modifier| >= 1
    ensures ParseOffset("UTC" + modifier) == ParseModifier(modifier)
  {
    var tz := "UTC" + modifier;
    assert |tz| > 3;
    assert tz[3..] == modifier;
  }

  lemma NoColonInDigits(s: string)
    requires Text.AllDigits(s)
    ensures ':' !in s
  {
    assert forall i :: 0 <= i < |s| ==> Text.IsDigit(s[i]);
  }

  /** A label without a minutes part, 'UTC±HH', has offset ±HH·60. */
  lemma ParseOffsetWithoutMinutes(sign: char, hh: string)
    requires sign == '+' || sign == '-'
    requires Text.AllDigits(hh)
    ensures ParseOffset("UTC" + [sign] + hh)
      == Some((if sign == '-' then -1 else 1) * Text.DigitsValue(hh) * 60)
  {
    var sg: int := if sign == '-' then -1 else 1;
    assert "UTC" + [sign] + hh == "UTC" + ([sign] + hh);
    ParseOffsetSkipsPrefix([sign] + hh);
    assert ([sign] + hh)[1..] == hh;
    NoColonInDigits(hh);
    Text.SplitNoSeparator(hh, ':');
    assert ParseModifier([sign] + hh) == ParseClock(sg, [hh]);
    var v := Text.DigitsValue(hh);
    assert ParseClock(sg, [hh]) == Some(sg * (v * 60));
    assert sg * (v * 60) == sg * v * 60;
  }

  /** Two-digit zero padding, as in the labels the country service emits. */
  function Pad2(n: nat): (s: string)
    ensures Text.AllDigits(s) && Text.DigitsValue(s) == n
  {
    if n < 10 then
      Text.DigitsValueLeadingZero(Text.NatToString(n));
      "0" + Text.NatToString(n)
    else Text.NatToString(n)
  }

  /** The label 'UTC±HH:MM' of an offset in minutes. */
  function FormatOffset(minutes: int): string {
    var m := if minutes < 0 then -minutes else minutes;
    "UTC" + [if minutes < 0 then '-' else '+'] + Pad2(m / 60) + ":" + Pad2(m % 60)
  }

  /** Parsing a formatted offset gives the offset back. */
  lemma ParseFormatRoundTrip(minutes: int)
    ensures ParseOffset(FormatOffset(minutes)) == Some(minutes)
  {
    var m := if minutes < 0 then -minutes else minutes;
    var sign := if minutes < 0 then '-' else '+';
    ParseOffsetWellFormed(sign, Pad2(m / 60), Pad2(m % 60));
  }

  /** The offset behind a country's local time: `None` when the document
      lists no timezone (no local time is computed), otherwise the parse of
      its first timezone label, itself `None` when that is NaN. */
  function CountryOffset(doc: Api.CountryDoc): (r: Option<Option<int>>)
    ensures r.None? <==> doc.timezones.None? || |doc.timezones.value| == 0
    ensures r.Some? ==> r.value == ParseOffset(doc.timezones.value[0])
  {
    match doc.timezones
    case Some(zones) => if |zones| > 0 then Some(ParseOffset(zones[0])) else None
    case None => None
  }

  /** A country whose first timezone is a canonical 'UTC±HH:MM' label gets
      exactly that offset; the `{}` fallback document gets none. */
  lemma CountryOffsetOfLabel(doc: Api.CountryDoc, minutes: int)
    requires doc.timezones.Some? && |doc.timezones.value| > 0
    requires doc.timezones.value[0] == FormatOffset(minutes)
    ensures CountryOffset(doc) == Some(Some(minutes))
    ensures CountryOffset(Api.EmptyDoc).None?
  {
    ParseFormatRoundTrip(minutes);
  }

  // ---------------------------------------------------------------------
  // Flag emoji

  /** Regional indicator symbols are U+1F1E6 ('A') to U+1F1FF ('Z'). */
  const RegionalOffset := 127397

  predicate IsRegionalIndicator(c: char) {
    0x1F1E6 <= c as int <= 0x1F1FF
  }

  predicate IsUpperLetters(s: string) {
    forall i :: 0 <= i < |s| ==> 'A' <= s[i] <= 'Z'
  }

  /** `getFlagEmoji`: each character, upper-cased, shifted by 127397. */
  function FlagEmoji(code: string): (r: string)
    requires Text.IsAscii(code)
    ensures |r| == |code|
    ensures forall i :: 0 <= i < |code| ==> r[i] as int == RegionalOffset + Text.UpperChar(code[i]) as int
    ensures forall i :: 0 <= i < |code| && ('A' <= code[i] <= 'Z' || 'a' <= code[i] <= 'z') ==>
      IsRegionalIndicator(r[i])
  {
    seq(|code|, i requires 0 <= i < |code| => (RegionalOffset + Text.UpperChar(code[i]) as int) as char)
  }

  /** Reads the letters back from a sequence of regional indicators. */
  function CodeFromFlag(flag: string): (r: Option<string>)
    ensures r.Some? <==> forall i :: 0 <= i < |flag| ==> IsRegionalIndicator(flag[i])
    ensures r.Some? ==> |r.value| == |flag| && IsUpperLetters(r.value)
  {
    if forall i :: 0 <= i < |flag| ==> IsRegionalIndicator(flag[i]) then
      Some(seq(|flag|, i requires 0 <= i < |flag| => (flag[i] as int - RegionalOffset) as char))
    else None
  }

  /** The flag of an upper-case alpha-2 code decodes to that code. */
  lemma FlagRoundTrip(code: string)
    requires IsUpperLetters(code)
    ensures Text.IsAscii(code) && CodeFromFlag(FlagEmoji(code)) == Some(code)
  {
    var flag := FlagEmoji(code);
    forall i | 0 <= i < |flag| ensures IsRegionalIndicator(flag[i]) {
      assert Text.UpperChar(code[i]) == code[i];
    }
    var back := CodeFromFlag(flag).value;
    forall i | 0 <= i < |code| ensures back[i] == code[i] {
      assert Text.UpperChar(code[i]) == code[i];
      assert back[i] as int == code[i] as int;
    }
    assert back == code;
  }

  /** The flag does not depend on letter case. */
  lemma FlagIgnoresCase(a: string, b: string)
    requires Text.IsAscii(a) && Text.IsAscii(b)
    requires Text.Lower(a) == Text.Lower(b)
    ensures FlagEmoji(a) == FlagEmoji(b)
  {
    forall i | 0 <= i < |a| ensures Text.UpperChar(a[i]) == Text.UpperChar(b[i]) {
      assert Text.LowerChar(a[i]) == Text.LowerChar(b[i]);
    }
  }

  // ---------------------------------------------------------------------
  // Day length

  datatype Duration = Duration(hours: int, mins: int)

  /** JavaScript `a % b` for a positive `b`: the remainder takes the sign of
      the dividend. */
  function JsRem(a: int, b: int): (r: int)
    requires b > 0
    ensures a >= 0 ==> 0 <= r < b
    ensures a < 0 ==> -b < r <= 0
    ensures (a - r) % b == 0
  {
    if a >= 0 then
      MultipleHasNoRemainder(a / b, b);
      assert a - a % b == (a / b) * b;
      a % b
    else
      MultipleHasNoRemainder(-((-a) / b), b);
      assert a + (-a) % b == (-((-a) / b)) * b;
      -((-a) % b)
  }

  /** A multiple of `b` leaves no remainder. */
  lemma MultipleHasNoRemainder(q: int, b: int)
    requires b > 0
    ensures (q * b) % b == 0
  {
    var x := q * b;
    var d := x / b;
    var r := x % b;
    assert r == (q - d) * b;
    PositiveMultiple(q - d, b);
  }

  /** Day length in hours and minutes: `Math.floor(s / 3600)` and
      `Math.floor((s % 3600) / 60)` (Dafny's `/` by a positive divisor is the
      floor). Shown only when `s` is not 0. */
  function DayLength(s: int): (r: Option<Duration>)
    ensures r.None? <==> s == 0
    ensures s > 0 ==> (r.Some? && r.value.hours >= 0 && 0 <= r.value.mins < 60
      && r.value.hours * 3600 + r.value.mins * 60 <= s < r.value.hours * 3600 + r.value.mins * 60 + 60)
  {
    if s == 0 then None
    else Some(Duration(s / 3600, JsRem(s, 3600) / 60))
  }

  /** For a positive length the split is the unique one with minutes below 60
      and at most 59 seconds left over. */
  lemma DayLengthUnique(s: int, h: int, m: int)
    requires s > 0 && 0 <= m < 60
    requires h * 3600 + m * 60 <= s < h * 3600 + m * 60 + 60
    ensures DayLength(s) == Some(Duration(h, m))
  {
    var d := DayLength(s).value;
    var a := d.hours * 60 + d.mins;
    var b := h * 60 + m;
    assert a * 60 <= s < a * 60 + 60;
    assert b * 60 <= s < b * 60 + 60;
    FloorUnique(s, a, 60);
    FloorUnique(s, b, 60);
    FloorUnique(a, d.hours, 60);
    FloorUnique(a, h, 60);
  }

  /** The quotient of a division by a positive number is unique. */
  lemma FloorUnique(s: int, q: int, k: int)
    requires k > 0 && q * k <= s < q * k + k
    ensures s / k == q
  {
    var r := s / k;
    assert r * k <= s < r * k + k;
    assert (q - r) * k < k && (r - q) * k < k;
    assert q - r < 1 by { PositiveMultiple(q - r, k); }
    assert r - q < 1 by { PositiveMultiple(r - q, k); }
  }

  lemma PositiveMultiple(x: int, k: int)
    requires k > 0 && x * k < k
    ensures x < 1
  {
    assert x * k < 1 * k;
  }

  // ---------------------------------------------------------------------
  // Country search

  /** A country matches a lower-cased term when its lower-cased name or code
      includes it. */
  function MatchesTerm(term: string): Api.CountryEntry -> bool {
    (c: Api.CountryEntry) => Text.Includes(Text.Lower(c.name), term) || Text.Includes(Text.Lower(c.countryCode), term)
  }

  /** The dropdown search: the countries whose name or code contains the
      term, ignoring case, in the listed order. */
  function SearchCountries(countries: seq<Api.CountryEntry>, term: string): (r: seq<Api.CountryEntry>)
    ensures forall c :: c in r <==> c in countries && MatchesTerm(Text.Lower(term))(c)
    ensures |r| == Count(countries, MatchesTerm(Text.Lower(term)))
    ensures term == "" ==> r == countries
  {
    FilterLength(countries, MatchesTerm(Text.Lower(term)));
    if term == "" then
      forall i | 0 <= i < |countries| ensures MatchesTerm("")(countries[i]) {
        Text.IncludesEmpty(Text.Lower(countries[i].name));
      }
      FilterKeepsAll(countries, MatchesTerm(""));
      Filter(countries, MatchesTerm(Text.Lower(term)))
    else Filter(countries, MatchesTerm(Text.Lower(term)))
  }

  /** Search results keep the list's order. */
  lemma SearchKeepsOrder(countries: seq<Api.CountryEntry>, term: string)
    ensures SubsequenceOf(SearchCountries(countries, term), countries)
  {
    FilterIsSubsequence(countries, MatchesTerm(Text.Lower(term)));
  }

  /** Typing more characters can only narrow the results. */
  lemma LongerTermNarrows(countries: seq<Api.CountryEntry>, term: string, more: string)
    ensures forall c :: c in SearchCountries(countries, term + more) ==> c in SearchCountries(countries, term)
  {
    Text.LowerAppend(term, more);
    var t := Text.Lower(term);
    var u := Text.Lower(more);
    forall c | c in SearchCountries(countries, term + more)
      ensures c in SearchCountries(countries, term)
    {
      if Text.Includes(Text.Lower(c.name), t + u) {
        Text.IncludesPrefix(Text.Lower(c.name), t, u);
      } else {
        Text.IncludesPrefix(Text.Lower(c.countryCode), t, u);
      }
    }
  }

  // ---------------------------------------------------------------------
  // Saved-plan cards

  datatype Badge = Badge(text: string, cls: string, infoIcon: string, infoText: string)

  /** The badge and info line of a saved-plan card. */
  function PlanBadge(p: Storage.Plan): (b: Badge)
    ensures b.infoText != ""
    ensures p.kind == Some("holiday") ==> b.text == "HOLIDAY" && b.infoText == OrElse(p.extra, "Public Holiday")
    ensures p.kind == Some("longweekend") ==>
      b.text == "LONG WEEKEND" && b.infoText == OrElse(p.extra, "Bridge Day Status")
    ensures p.kind == Some("event") ==> (b.text == "EVENT" && b.infoIcon == "fa-location-dot"
      && b.infoText == OrElse(p.extra, OrElse(p.location, "Saved Item")))
    ensures p.kind !in {Some("holiday"), Some("longweekend"), Some("event")} ==>
      b.text == "PLAN" && b.infoText == OrElse(p.extra, OrElse(p.location, "Saved Item"))
  {
    var info := OrElse(p.extra, OrElse(p.location, "Saved Item"));
    if p.kind == Some("holiday") then
      Badge("HOLIDAY", "badge-holiday", "fa-info-circle", OrElse(p.extra, "Public Holiday"))
    else if p.kind == Some("longweekend") then
      Badge("LONG WEEKEND", "badge-longweekend", "fa-info-circle", OrElse(p.extra, "Bridge Day Status"))
    else if p.kind == Some("event") then
      Badge("EVENT", "badge-event", "fa-location-dot", info)
    else Badge("PLAN", "badge-other", "fa-info-circle", info)
  }

  // ---------------------------------------------------------------------
  // Country details

  /** The calling code: the root followed by the first suffix, either one
      empty when missing; 'N/A' without dialling information. */
  function CallingCode(idd: Option<Api.Idd>): (r: string)
    ensures idd.None? ==> r == "N/A"
    ensures idd.Some? ==>
      var root := OrElse(idd.value.root, "");
      && |root| <= |r| && r[..|root|] == root
      && r[|root|..] == (if idd.value.suffixes.Some? && |idd.value.suffixes.value| >= 1
                         then idd.value.suffixes.value[0] else "")
  {
    match idd
    case None => "N/A"
    case Some(d) =>
      var root := OrElse(d.root, "");
      var suffix := if d.suffixes.Some? && |d.suffixes.value| >= 1 then d.suffixes.value[0] else "";
      root + suffix
  }

  /** The calling code is empty exactly when dialling information exists
      but has neither a root nor a first suffix; without a suffix it is the
      root alone. */
  lemma CallingCodeEmptyIff(idd: Option<Api.Idd>)
    ensures CallingCode(idd) == "" <==>
      idd.Some? && !Truthy(idd.value.root)
      && (idd.value.suffixes.None? || |idd.value.suffixes.value| == 0 || idd.value.suffixes.value[0] == "")
    ensures idd.Some? && (idd.value.suffixes.None? || |idd.value.suffixes.value| == 0) ==>
      CallingCode(idd) == OrElse(idd.value.root, "")
  {
  }

  datatype CityOption = CityOption(value: string, text: string)

  /** `populateCityDropdown`: one option per city, or a single empty-valued
      'No cities found' option; the first option is selected. */
  function CityOptions(cities: seq<string>): (r: seq<CityOption>)
    ensures |r| >= 1
    ensures |cities| == 0 ==> r == [CityOption("", "No cities found")]
    ensures |cities| > 0 ==> |r| == |cities| && forall i :: 0 <= i < |r| ==> r[i].value == cities[i]
  {
    if |cities| == 0 then [CityOption("", "No cities found")]
    else seq(|cities|, i requires 0 <= i < |cities| => CityOption(cities[i], cities[i]))
  }

  // ---------------------------------------------------------------------
  // Save buttons

  /** The `data-*` attributes of a save button; an absent attribute reads as
      `undefined`. */
  datatype SaveButton = SaveButton(
    id: Option<string>,
    title: Option<string>,
    date: Option<string>,
    kind: Option<string>,
    location: Option<string>,
    extra: Option<string>)

  /** The value the HTML parser reads back from a double-quoted attribute
      into which `s` was interpolated: the text before the first `"`, which
      closes the attribute. */
  function Attribute(s: string): (v: string)
    ensures '"' !in v
    ensures |v| <= |s| && v == s[..|v|]
    ensures '"' !in s ==> v == s
    ensures '"' in s ==> |v| < |s| && s[|v|] == '"'
    decreases |s|
  {
    if |s| == 0 || s[0] == '"' then ""
    else [s[0]] + Attribute(s[1..])
  }

  /** Text without a quote passes through an attribute unchanged, whatever
      follows it. */
  lemma {:induction false} AttributeAfterPlainPrefix(a: string, b: string)
    requires '"' !in a
    ensures Attribute(a + b) == a + Attribute(b)
    decreases |a|
  {
    if |a| > 0 {
      assert (a + b)[0] == a[0];
      assert (a + b)[1..] == a[1..] + b;
      AttributeAfterPlainPrefix(a[1..], b);
      assert a == [a[0]] + a[1..];
    } else {
      assert a + b == b;
    }
  }

  /** A value interpolated into a template literal: `undefined` is written
      out as the word. */
  function Interpolate(o: Option<string>): (s: string)
    ensures o.Some? ==> s == o.value
    ensures o.None? ==> s == "undefined"
  {
    o.GetOr("undefined")
  }

  /** The status line of a long weekend. */
  function BridgeStatus(needBridgeDay: bool): string {
    if needBridgeDay then "Requires bridge day" else "No extra days off needed!"
  }

  /** The save button of the `index`-th long weekend of `year`; the dates
      are the locale-formatted start and end. The id and the date are read
      back through their attributes (the prefix 'lw-' and the index hold no
      quote); the title and the status text are built from digits and fixed
      words only, so they read back as written. */
  function LongWeekendButton(index: nat, year: string, lw: Api.LongWeekend, startStr: string, endStr: string)
    : (b: SaveButton)
    ensures b.id == Some("lw-" + Text.NatToString(index) + "-" + Attribute(year))
    ensures b.title == Some("Long Weekend #" + Text.NatToString(index + 1))
    ensures b.date == Some(Attribute(startStr + " - " + endStr))
    ensures b.kind == Some("longweekend") && b.location.None?
    ensures b.extra == Some(if lw.needBridgeDay then "Requires bridge day" else "No extra days off needed!")
  {
    var prefix := "lw-" + Text.NatToString(index) + "-";
    PrefixHasNoQuote(index);
    AttributeAfterPlainPrefix(prefix, year);
    SaveButton(
      Some(Attribute(prefix + year)),
      Some("Long Weekend #" + Text.NatToString(index + 1)),
      Some(Attribute(startStr + " - " + endStr)),
      Some("longweekend"),
      None,
      Some(BridgeStatus(lw.needBridgeDay)))
  }

  /** The id prefix of a long weekend holds no quote. */
  lemma PrefixHasNoQuote(index: nat)
    ensures '"' !in "lw-" + Text.NatToString(index) + "-"
  {
    var d := Text.NatToString(index);
    assert forall i :: 0 <= i < |d| ==> Text.IsDigit(d[i]);
    var p := "lw-" + d + "-";
    forall i | 0 <= i < |p| ensures p[i] != '"' {
      if 3 <= i < 3 + |d| {
        assert p[i] == d[i - 3];
      }
    }
  }

  /** Different long weekends of the same year get different button ids. */
  lemma LongWeekendIdsDistinct(i: nat, j: nat, year: string, lw: Api.LongWeekend, s: string, e: string)
    requires i != j
    ensures LongWeekendButton(i, year, lw, s, e).id != LongWeekendButton(j, year, lw, s, e).id
  {
    var a := Text.NatToString(i);
    var b := Text.NatToString(j);
    var y := Attribute(year);
    if "lw-" + a + "-" + y == "lw-" + b + "-" + y {
      assert a + ['-'] + y == b + ['-'] + y by {
        assert ("lw-" + a + "-" + y)[3..] == a + ['-'] + y;
        assert ("lw-" + b + "-" + y)[3..] == b + ['-'] + y;
      }
      DigitPrefixDetermined(a, b, y, y);
      Text.NatToStringInjective(i, j);
    }
  }

  /** A digit string followed by '-' is determined by the whole string. */
  lemma DigitPrefixDetermined(a: string, b: string, x: string, y: string)
    requires Text.AllDigits(a) && Text.AllDigits(b)
    requires a + ['-'] + x == b + ['-'] + y
    ensures a == b
  {
    var s := a + ['-'] + x;
    FirstSeparatorAfterDigits(a, x);
    FirstSeparatorAfterDigits(b, y);
    assert a == s[..|a|];
  }

  /** In digits followed by '-', the first '-' sits right after the digits. */
  lemma FirstSeparatorAfterDigits(a: string, x: string)
    requires Text.AllDigits(a)
    ensures '-' in a + ['-'] + x && Text.FirstIndexOf(a + ['-'] + x, '-') == |a|
  {
    var s := a + ['-'] + x;
    assert s[|a|] == '-';
    assert '-' !in a by { assert forall i :: 0 <= i < |a| ==> Text.IsDigit(a[i]); }
    var k := Text.FirstIndexOf(s, '-');
    assert s[..|a|] == a;
    assert k <= |a| by { assert s[|a|] !in s[..k] || k <= |a|; }
  }

  /** The save button of a holiday card, each value read back through its
      attribute. */
  function HolidayButton(h: Api.Holiday): (b: SaveButton)
    ensures b.id == Some(Attribute(h.date + "-" + h.countryCode))
    ensures b.title == Some(Attribute(h.name)) && b.date == Some(Attribute(h.date))
    ensures b.kind == Some("holiday") && b.location.None?
    ensures b.extra == Some(Attribute(if Truthy(h.localName) then h.localName.value else h.name))
    ensures '"' !in h.name ==> b.title == Some(h.name)
  {
    SaveButton(Some(Attribute(h.date + "-" + h.countryCode)), Some(Attribute(h.name)), Some(Attribute(h.date)),
      Some("holiday"), None, Some(Attribute(OrElse(h.localName, h.name))))
  }

  /** The save button of an event card (both the heart and the 'Save'
      button carry the same attributes), each value read back through its
      attribute. */
  function EventButton(ev: Api.Event): (b: SaveButton)
    ensures b.id == Some(Attribute(Interpolate(ev.id))) && b.title == Some(Attribute(Interpolate(ev.name)))
    ensures b.date == Some(Attribute(ev.date))
    ensures b.kind == Some("event") && b.location.None? && b.extra == Some(Attribute(ev.location))
    ensures ev.name.Some? && '"' !in ev.name.value ==> b.title == ev.name
  {
    SaveButton(Some(Attribute(Interpolate(ev.id))), Some(Attribute(Interpolate(ev.name))), Some(Attribute(ev.date)),
      Some("event"), None, Some(Attribute(ev.location)))
  }
}
