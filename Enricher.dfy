/**
 * `enrich_record`: one merged CSV row in, one enriched record out. Derived
 * fields are computed from the stripped source text, are None when the source
 * field is missing or blank, and override raw columns of the same name. The
 * exceptions the source raises are the Failure cases of the Result.
 */
module Enricher {
  import opened Wrappers
  import opened Text
  import opened Calendar
  import opened Records

  /** The exceptions `enrich_record` lets through. */
  datatype EnrichError =
    | InvalidLiteral(text: string)  // ValueError from int()
    | InvalidDate(text: string)     // ValueError from strptime() or from an impossible date
    | ReleaseYearMissing            // TypeError from `date_added.year - None`

  /** A date added is a date the calendar has, as every Python `date` is. */
  predicate WellFormed(e: Enrichment) {
    e.dateAdded.Some? ==> Valid(e.dateAdded.value)
  }

  /** The derived fields of one record, before they are merged into it. */
  datatype Enrichment = Enrichment(
    releaseYear: Option<int>,
    rating: Option<string>,
    dateAdded: Option<Date>,
    yearsAfterRelease: Option<int>,
    directors: Option<seq<string>>,
    casts: Option<seq<string>>,
    producerCountries: Option<seq<string>>,
    categories: Option<seq<string>>,
    movieDuration: Option<int>,
    tvSeriesSeasons: Option<int>)

  /** `record.get(name, "")` */
  function RawText(record: CsvRecord, name: string): string {
    if name in record then record[name] else ""
  }

  /** `record.get(name, "").strip()` */
  function FieldText(record: CsvRecord, name: string): string {
    Strip(RawText(record, name))
  }

  /** `not value`: the field is missing or holds only whitespace. */
  predicate IsBlank(record: CsvRecord, name: string) {
    FieldText(record, name) == []
  }

  /**
   * `apply_if_not_null`: None for a blank field; otherwise `f` applied to the
   * stripped text, whose failure is the record's failure.
   */
  function ApplyIfNotNull<T>(record: CsvRecord, name: string, f: string -> Result<T, EnrichError>)
    : (r: Result<Option<T>, EnrichError>)
    ensures IsBlank(record, name) <==> r == Success(None)
    ensures !IsBlank(record, name) ==>
      var value := FieldText(record, name);
      (r.Failure? ==> f(value) == Failure(r.error))
      && (r.Success? ==> r.value.Some? && f(value) == Success(r.value.value))
  {
    var value := FieldText(record, name);
    if value != [] then
      var v :- f(value);
      Success(Some(v))
    else Success(None)
  }

  /** `apply_if_not_null(name, lambda r: r)`: the stripped text, or None when blank. */
  function OptionalText(record: CsvRecord, name: string): (r: Option<string>)
    ensures r.None? <==> IsBlank(record, name)
    ensures r.Some? ==> r.value == FieldText(record, name)
  {
    var value := FieldText(record, name);
    if value != [] then Some(value) else None
  }

  /** `int(text)` */
  function ParseInteger(text: string): (r: Result<int, EnrichError>)
    ensures r.Success? <==> IsIntLiteral(text)
    ensures r.Success? ==> Some(r.value) == ParseInt(text)
    ensures r.Failure? ==> r.error == InvalidLiteral(text)
  {
    match ParseInt(text)
    case Some(n) => Success(n)
    case None => Failure(InvalidLiteral(text))
  }

  /** `datetime.strptime(text, "%B %d, %Y").date()` */
  function ParseDateAdded(text: string): (r: Result<Date, EnrichError>)
    ensures r.Success? <==> ParseLongDate(text).Some?
    ensures r.Success? ==> ParseLongDate(text) == Some(r.value) && Valid(r.value)
    ensures r.Failure? ==> r.error == InvalidDate(text)
  {
    match ParseLongDate(text)
    case Some(d) => Success(d)
    case None => Failure(InvalidDate(text))
  }

  /**
   * `split_by_comma`: one element per comma plus one, each the stripped text
   * between two commas, in order; empty elements are kept.
   */
  function SplitByComma(value: string): (r: seq<string>)
    ensures |r| == |Split(value, ',')| == multiset(value)[','] + 1
    ensures forall k :: 0 <= k < |r| ==> r[k] == Strip(Split(value, ',')[k])
  {
    var parts := Split(value, ',');
    SplitCount(value, ',');
    seq(|parts|, k requires 0 <= k < |parts| => Strip(parts[k]))
  }

  /** `apply_if_not_null(name, split_by_comma)` */
  function SplitIfNotNull(record: CsvRecord, name: string): (r: Option<seq<string>>)
    ensures r.None? <==> IsBlank(record, name)
    ensures r.Some? ==> r.value == SplitByComma(FieldText(record, name))
  {
    match OptionalText(record, name)
    case None => None
    case Some(value) => Some(SplitByComma(value))
  }

  /** The text before the first space of a duration: `parts[0].strip()`. */
  function DurationNumber(s: string): string {
    Strip(SplitOnce(s, ' ')[0])
  }

  /** The lower-cased text after the first space, or the whole text when there is none: `parts[-1].lower()`. */
  function DurationUnit(s: string): (unit: string)
    ensures ' ' !in s ==> unit == Lower(s)
    ensures ' ' in s ==> exists i :: 0 <= i < |s| && s[i] == ' ' && ' ' !in s[..i] && unit == Lower(s[i + 1..])
  {
    var parts := SplitOnce(s, ' ');
    if |parts| == 2 then
      var i := |parts[0]|;
      assert s == parts[0] + [' '] + parts[1];
      assert s[i] == ' ' && s[..i] == parts[0] && s[i + 1..] == parts[1];
      Lower(parts[1])
    else Lower(parts[0])
  }

  /** `get_duration_or_seasons`: the leading number and the unit of a duration. */
  function GetDurationOrSeasons(s: string): (r: Result<(int, string), EnrichError>)
    ensures r.Success? <==> IsIntLiteral(DurationNumber(s))
    ensures r.Success? ==> ParseInt(DurationNumber(s)) == Some(r.value.0) && r.value.1 == DurationUnit(s)
    ensures r.Failure? ==> r.error == InvalidLiteral(DurationNumber(s))
  {
    var parts := SplitOnce(s, ' ');
    var n :- ParseInteger(Strip(parts[0]));
    Success((n, Lower(parts[|parts| - 1])))
  }

  /** `get_movie_duration`: the number when the unit contains `min`. */
  function GetMovieDuration(s: string): (r: Result<Option<int>, EnrichError>)
    ensures r.Success? <==> IsIntLiteral(DurationNumber(s))
    ensures r.Success? ==> (r.value.Some? <==> Contains(DurationUnit(s), "min"))
    ensures r.Success? && r.value.Some? ==> ParseInt(DurationNumber(s)) == r.value
  {
    var p :- GetDurationOrSeasons(s);
    Success(if Contains(p.1, "min") then Some(p.0) else None)
  }

  /** `get_tv_series_seasons`: the number when the unit contains `seasons`. */
  function GetTvSeriesSeasons(s: string): (r: Result<Option<int>, EnrichError>)
    ensures r.Success? <==> IsIntLiteral(DurationNumber(s))
    ensures r.Success? ==> (r.value.Some? <==> Contains(DurationUnit(s), "seasons"))
    ensures r.Success? && r.value.Some? ==> ParseInt(DurationNumber(s)) == r.value
  {
    var p :- GetDurationOrSeasons(s);
    Success(if Contains(p.1, "seasons") then Some(p.0) else None)
  }

  /**
   * `date_added.year - release_year if date_added else None`: None without a
   * date; with a date but no release year the subtraction raises TypeError.
   */
  function YearsAfterRelease(dateAdded: Option<Date>, releaseYear: Option<int>)
    : (r: Result<Option<int>, EnrichError>)
    ensures r.Failure? <==> dateAdded.Some? && releaseYear.None?
    ensures r.Failure? ==> r.error == ReleaseYearMissing
    ensures r.Success? ==> (r.value.Some? <==> dateAdded.Some?)
    ensures r.Success? && r.value.Some? ==> r.value.value == dateAdded.value.year - releaseYear.value
  {
    match dateAdded
    case None => Success(None)
    case Some(d) =>
      match releaseYear
      case None => Failure(ReleaseYearMissing)
      case Some(y) => Success(Some(d.year - y))
  }

  /** None for None, the inner value otherwise: Python has a single None. */
  function Flatten<T>(o: Option<Option<T>>): Option<T> {
    match o
    case None => None
    case Some(inner) => inner
  }

  /** A duration `<number> <unit>` whose number has no whitespace splits into that number and the lower-cased unit. */
  lemma DurationParts(number: string, unit: string)
    requires number != [] && forall k :: 0 <= k < |number| ==> !IsSpace(number[k])
    ensures DurationNumber(number + " " + unit) == number
    ensures DurationUnit(number + " " + unit) == Lower(unit)
  {
    var s := number + " " + unit;
    assert ' ' !in number by {
      forall k | 0 <= k < |number| ensures number[k] != ' ' {
        assert !IsSpace(number[k]);
      }
    }
    IndexOfAfter(number, ' ', unit);
    assert s == number + [' '] + unit;
    assert s[..|number|] == number && s[|number| + 1..] == unit;
    assert SkipSpaces(number, 0) == 0;
    assert SkipSpacesBack(number, 0, |number|) == |number|;
  }

  /** A duration `<digits> <unit>`: the number is set for a unit with `min` or `seasons`. */
  lemma DurationFields(duration: string, number: string, unit: string)
    requires duration == number + " " + unit
    requires number != [] && AllDigits(number)
    ensures GetMovieDuration(duration)
      == Success(if Contains(Lower(unit), "min") then Some(DigitsValue(number) as int) else None)
    ensures GetTvSeriesSeasons(duration)
      == Success(if Contains(Lower(unit), "seasons") then Some(DigitsValue(number) as int) else None)
  {
    forall k | 0 <= k < |number| ensures !IsSpace(number[k]) {
      assert IsDigit(number[k]);
    }
    DurationParts(number, unit);
    ParseDigits(number);
  }

  /** The unit `min` marks a movie and not a series. */
  lemma MinutesUnit()
    ensures Contains(Lower("min"), "min") && !Contains(Lower("min"), "seasons")
  {
    assert Lower("min") == "min";
    assert OccursAt("min", "min", 0);
  }

  /** The unit `Seasons` marks a series and not a movie. */
  lemma SeasonsUnit()
    ensures !Contains(Lower("Seasons"), "min") && Contains(Lower("Seasons"), "seasons")
  {
    assert Lower("Seasons") == "seasons";
    assert OccursAt("seasons", "seasons", 0);
    NotContainsFirst("seasons", "min");
  }

  /** The unit `Season` marks neither. */
  lemma SeasonUnit()
    ensures !Contains(Lower("Season"), "min") && !Contains(Lower("Season"), "seasons")
  {
    assert Lower("Season") == "season";
    NotContainsFirst("season", "min");
  }

  /** `"90 min"` is a 90-minute movie and no series. */
  lemma MovieDurationExample(duration: string)
    requires duration == "90 min"
    ensures GetMovieDuration(duration) == Success(Some(90))
    ensures GetTvSeriesSeasons(duration) == Success(None)
  {
    assert "90"[..1] == "9" && "9"[..0] == "";
    assert DigitsValue("9") == 9;
    assert DigitsValue("90") == 90;
    DurationFields(duration, "90", "min");
    MinutesUnit();
  }

  /** `"2 Seasons"` is a two-season series and no movie. */
  lemma SeasonsExample(duration: string)
    requires duration == "2 Seasons"
    ensures GetMovieDuration(duration) == Success(None)
    ensures GetTvSeriesSeasons(duration) == Success(Some(2))
  {
    assert "2"[..0] == "";
    assert DigitsValue("2") == 2;
    DurationFields(duration, "2", "Seasons");
    SeasonsUnit();
  }

  /** `"1 Season"` gives no seasons at all: `season` does not contain `seasons`. */
  lemma OneSeasonExample(duration: string)
    requires duration == "1 Season"
    ensures GetMovieDuration(duration) == Success(None)
    ensures GetTvSeriesSeasons(duration) == Success(None)
  {
    DurationFields(duration, "1", "Season");
    SeasonUnit();
  }

  /** A duration without a space takes the number itself as its unit: both fields are None. */
  lemma NoUnitExample()
    ensures GetMovieDuration("90") == Success(None)
    ensures GetTvSeriesSeasons("90") == Success(None)
  {
    assert SplitOnce("90", ' ') == ["90"];
    assert SkipSpaces("90", 0) == 0 && SkipSpacesBack("90", 0, 2) == 2;
    assert Lower("90") == "90";
    assert "90"[..1] == "9" && "9"[..0] == "";
    ParseDigits("90");
    NotContainsFirst("90", "min");
    assert |"90"| < |"seasons"|;
  }

  /** The unit `minseasons` marks both a movie and a series. */
  lemma BothUnit(unit: string)
    requires unit == "minseasons"
    ensures Contains(Lower(unit), "min") && Contains(Lower(unit), "seasons")
  {
    assert Lower(unit) == unit;
    assert unit[0..3] == "min";
    assert OccursAt(unit, "min", 0);
    assert unit[3..10] == "seasons";
    assert OccursAt(unit, "seasons", 3);
  }

  /** A unit holding both `min` and `seasons` sets both fields: the two are exclusive only for the usual units. */
  lemma BothUnitsExample(duration: string)
    requires duration == "3 minseasons"
    ensures GetMovieDuration(duration) == Success(Some(3))
    ensures GetTvSeriesSeasons(duration) == Success(Some(3))
  {
    assert "3"[..0] == "";
    assert DigitsValue("3") == 3;
    DurationFields(duration, "3", "minseasons");
    BothUnit("minseasons");
  }

  /** The comma-separated parts of `"A,,B"`. */
  lemma CommaPartsExample(value: string)
    requires value == "A,,B"
    ensures Split(value, ',') == ["A", "", "B"]
  {
    assert value == "A" + [','] + ("" + [','] + "B");
    SplitAtFirst("A", ',', "" + [','] + "B");
    SplitAtFirst("", ',', "B");
    assert Split("B", ',') == ["B"];
  }

  /** Parts without whitespace come out of `split_by_comma` unchanged. */
  lemma SplitByCommaPlain(value: string)
    requires forall k :: 0 <= k < |Split(value, ',')| ==> NoSpace(Split(value, ',')[k])
    ensures SplitByComma(value) == Split(value, ',')
  {
    var parts := Split(value, ',');
    forall k | 0 <= k < |parts|
      ensures Strip(parts[k]) == parts[k]
    {
      StripPlain(parts[k]);
    }
  }

  /** `"A,,B"` splits into `["A", "", "B"]`: the empty element is kept. */
  lemma SplitKeepsEmptyExample(value: string)
    requires value == "A,,B"
    ensures SplitByComma(value) == ["A", "", "B"]
  {
    CommaPartsExample(value);
    var parts := Split(value, ',');
    assert NoSpace(parts[0]) && NoSpace(parts[1]) && NoSpace(parts[2]);
    SplitByCommaPlain(value);
  }

  /** The result of each step of `enrich_record`, before any exception stops the others. */
  datatype Steps = Steps(
    releaseYear: Result<Option<int>, EnrichError>,
    rating: Option<string>,
    dateAdded: Result<Option<Date>, EnrichError>,
    directors: Option<seq<string>>,
    casts: Option<seq<string>>,
    producerCountries: Option<seq<string>>,
    categories: Option<seq<string>>,
    movieDuration: Result<Option<Option<int>>, EnrichError>,
    tvSeriesSeasons: Result<Option<Option<int>>, EnrichError>)

  function StepsOf(record: CsvRecord): Steps {
    Steps(
      ApplyIfNotNull(record, "release_year", ParseInteger),
      OptionalText(record, "rating"),
      ApplyIfNotNull(record, "date_added", ParseDateAdded),
      SplitIfNotNull(record, "director"),
      SplitIfNotNull(record, "cast"),
      SplitIfNotNull(record, "country"),
      SplitIfNotNull(record, "listed_in"),
      ApplyIfNotNull(record, "duration", GetMovieDuration),
      ApplyIfNotNull(record, "duration", GetTvSeriesSeasons))
  }

  /**
   * The first exception in the order the source evaluates the steps (release
   * year, date added, years after release, movie duration, seasons), or the
   * derived fields when there is none. Rating and the lists cannot raise.
   */
  function Combine(s: Steps): Result<Enrichment, EnrichError>
  {
    var releaseYear :- s.releaseYear;
    var dateAdded :- s.dateAdded;
    var yearsAfterRelease :- YearsAfterRelease(dateAdded, releaseYear);
    var movieDuration :- s.movieDuration;
    var tvSeriesSeasons :- s.tvSeriesSeasons;
    Success(Enrichment(releaseYear, s.rating, dateAdded, yearsAfterRelease,
      s.directors, s.casts, s.producerCountries, s.categories,
      Flatten(movieDuration), Flatten(tvSeriesSeasons)))
  }

  /** The derived fields of `enrich_record`. */
  function Enrich(record: CsvRecord): (r: Result<Enrichment, EnrichError>)
    ensures r.Success? ==> WellFormed(r.value)
  {
    Combine(StepsOf(record))
  }

  function IntValue(o: Option<int>): Value {
    if o.Some? then Int(o.value) else Null
  }

  function StrValue(o: Option<string>): Value {
    if o.Some? then Str(o.value) else Null
  }

  function ListValue(o: Option<seq<string>>): Value {
    if o.Some? then StrList(o.value) else Null
  }

  /** The keys `enrich_record` adds or overrides. */
  const DerivedKeys: set<string> := {"directors", "casts", "producer_countries", "date_added",
    "added_year", "added_month", "added_day_of_month", "added_day_of_week", "release_year",
    "rating", "years_after_release", "movie_duration", "tv_series_seasons", "categories"}

  /** The derived part of the returned dict. */
  function DerivedFields(e: Enrichment): (fields: Record)
    requires WellFormed(e)
    ensures fields.Keys == DerivedKeys
  {
    var d := e.dateAdded;
    map[
      "directors" := ListValue(e.directors),
      "casts" := ListValue(e.casts),
      "producer_countries" := ListValue(e.producerCountries),
      "date_added" := if d.Some? then Str(IsoText(d.value)) else Null,
      "added_year" := if d.Some? then Int(d.value.year) else Null,
      "added_month" := if d.Some? then Int(d.value.month) else Null,
      "added_day_of_month" := if d.Some? then Int(d.value.day) else Null,
      "added_day_of_week" := if d.Some? then Int(IsoWeekday(d.value)) else Null,
      "release_year" := IntValue(e.releaseYear),
      "rating" := StrValue(e.rating),
      "years_after_release" := IntValue(e.yearsAfterRelease),
      "movie_duration" := IntValue(e.movieDuration),
      "tv_series_seasons" := IntValue(e.tvSeriesSeasons),
      "categories" := ListValue(e.categories)]
  }

  /** The raw columns as values. */
  function Lift(record: CsvRecord): Record {
    map k | k in record :: Str(record[k])
  }

  /** `enrich_record`: `{**record, <derived fields>}`. */
  function EnrichRecord(record: CsvRecord): Result<Record, EnrichError>
  {
    var e :- Enrich(record);
    Success(Lift(record) + DerivedFields(e))
  }

  // DerivedLists, DerivedIsoDate, DerivedWeekday, DerivedYear, DerivedMonth,
  // DerivedDay and DerivedScalars each read a few entries of the map that
  // DerivedFields builds. They are kept apart so that each proof unfolds the
  // calendar arithmetic of one entry only. DerivedValues collects them.

  /** The lists under their derived keys. */
  lemma DerivedLists(record: CsvRecord, e: Enrichment)
    requires WellFormed(e)
    ensures var out := Lift(record) + DerivedFields(e);
      && out["directors"] == ListValue(e.directors)
      && out["casts"] == ListValue(e.casts)
      && out["producer_countries"] == ListValue(e.producerCountries)
      && out["categories"] == ListValue(e.categories)
  {
    var derived := DerivedFields(e);
    assert derived["directors"] == ListValue(e.directors);
    assert derived["casts"] == ListValue(e.casts);
    assert derived["producer_countries"] == ListValue(e.producerCountries);
    assert derived["categories"] == ListValue(e.categories);
  }

  lemma DerivedIsoDate(record: CsvRecord, e: Enrichment)
    requires WellFormed(e)
    ensures var d := e.dateAdded;
      (Lift(record) + DerivedFields(e))["date_added"] == (if d.Some? then Str(IsoText(d.value)) else Null)
  {
    var d := e.dateAdded;
    assert DerivedFields(e)["date_added"] == (if d.Some? then Str(IsoText(d.value)) else Null);
  }

  lemma DerivedWeekday(record: CsvRecord, e: Enrichment)
    requires WellFormed(e)
    ensures var d := e.dateAdded;
      (Lift(record) + DerivedFields(e))["added_day_of_week"] == (if d.Some? then Int(IsoWeekday(d.value)) else Null)
  {
    var d := e.dateAdded;
    assert DerivedFields(e)["added_day_of_week"] == (if d.Some? then Int(IsoWeekday(d.value)) else Null);
  }

  lemma DerivedYear(record: CsvRecord, e: Enrichment)
    requires WellFormed(e)
    ensures var d := e.dateAdded;
      (Lift(record) + DerivedFields(e))["added_year"] == (if d.Some? then Int(d.value.year) else Null)
  {
    var d := e.dateAdded;
    assert DerivedFields(e)["added_year"] == (if d.Some? then Int(d.value.year) else Null);
  }

  lemma DerivedMonth(record: CsvRecord, e: Enrichment)
    requires WellFormed(e)
    ensures var d := e.dateAdded;
      (Lift(record) + DerivedFields(e))["added_month"] == (if d.Some? then Int(d.value.month) else Null)
  {
    var d := e.dateAdded;
    assert DerivedFields(e)["added_month"] == (if d.Some? then Int(d.value.month) else Null);
  }

  lemma DerivedDay(record: CsvRecord, e: Enrichment)
    requires WellFormed(e)
    ensures var d := e.dateAdded;
      (Lift(record) + DerivedFields(e))["added_day_of_month"] == (if d.Some? then Int(d.value.day) else Null)
  {
    var d := e.dateAdded;
    assert DerivedFields(e)["added_day_of_month"] == (if d.Some? then Int(d.value.day) else Null);
  }

  /** The remaining derived fields under their keys. */
  lemma DerivedScalars(record: CsvRecord, e: Enrichment)
    requires WellFormed(e)
    ensures var out := Lift(record) + DerivedFields(e);
      && out["release_year"] == IntValue(e.releaseYear)
      && out["rating"] == StrValue(e.rating)
      && out["years_after_release"] == IntValue(e.yearsAfterRelease)
      && out["movie_duration"] == IntValue(e.movieDuration)
      && out["tv_series_seasons"] == IntValue(e.tvSeriesSeasons)
  {
    var derived := DerivedFields(e);
    assert derived["release_year"] == IntValue(e.releaseYear);
    assert derived["rating"] == StrValue(e.rating);
    assert derived["years_after_release"] == IntValue(e.yearsAfterRelease);
    assert derived["movie_duration"] == IntValue(e.movieDuration);
    assert derived["tv_series_seasons"] == IntValue(e.tvSeriesSeasons);
  }

  /** Where each derived field of a successful record comes from. */
  lemma DerivedValues(record: CsvRecord, out: Record) returns (e: Enrichment)
    requires EnrichRecord(record) == Success(out)
    ensures Combine(StepsOf(record)) == Success(e)
    ensures out["directors"] == ListValue(e.directors)
    ensures out["casts"] == ListValue(e.casts)
    ensures out["producer_countries"] == ListValue(e.producerCountries)
    ensures out["categories"] == ListValue(e.categories)
    ensures var d := e.dateAdded;
      && out["date_added"] == (if d.Some? then Str(IsoText(d.value)) else Null)
      && out["added_year"] == (if d.Some? then Int(d.value.year) else Null)
      && out["added_month"] == (if d.Some? then Int(d.value.month) else Null)
      && out["added_day_of_month"] == (if d.Some? then Int(d.value.day) else Null)
      && out["added_day_of_week"] == (if d.Some? then Int(IsoWeekday(d.value)) else Null)
    ensures out["release_year"] == IntValue(e.releaseYear)
    ensures out["rating"] == StrValue(e.rating)
    ensures out["years_after_release"] == IntValue(e.yearsAfterRelease)
    ensures out["movie_duration"] == IntValue(e.movieDuration)
    ensures out["tv_series_seasons"] == IntValue(e.tvSeriesSeasons)
  {
    e := Enrich(record).value;
    DerivedLists(record, e);
    DerivedIsoDate(record, e);
    DerivedWeekday(record, e);
    DerivedYear(record, e);
    DerivedMonth(record, e);
    DerivedDay(record, e);
    DerivedScalars(record, e);
  }

  /** A successful combination is made of the successful results of the steps. */
  lemma CombineSuccess(s: Steps, e: Enrichment)
    requires Combine(s) == Success(e)
    ensures s.releaseYear == Success(e.releaseYear) && s.dateAdded == Success(e.dateAdded)
    ensures YearsAfterRelease(e.dateAdded, e.releaseYear) == Success(e.yearsAfterRelease)
    ensures e.rating == s.rating
    ensures e.directors == s.directors && e.casts == s.casts
    ensures e.producerCountries == s.producerCountries && e.categories == s.categories
    ensures s.movieDuration.Success? && e.movieDuration == Flatten(s.movieDuration.value)
    ensures s.tvSeriesSeasons.Success? && e.tvSeriesSeasons == Flatten(s.tvSeriesSeasons.value)
  {
  }

  /** The combination fails exactly when a step does, with the first step's exception. */
  lemma CombineFailure(s: Steps)
    ensures Combine(s).Failure? <==>
      || s.releaseYear.Failure?
      || s.dateAdded.Failure?
      || (s.dateAdded.value.Some? && s.releaseYear.value.None?)
      || s.movieDuration.Failure?
      || s.tvSeriesSeasons.Failure?
    ensures Combine(s).Failure? ==>
      Combine(s).error == (
        if s.releaseYear.Failure? then s.releaseYear.error
        else if s.dateAdded.Failure? then s.dateAdded.error
        else if s.dateAdded.value.Some? && s.releaseYear.value.None? then ReleaseYearMissing
        else if s.movieDuration.Failure? then s.movieDuration.error
        else s.tvSeriesSeasons.error)
  {
  }

  /** The field holds text that `int()` refuses. */
  predicate BadReleaseYear(record: CsvRecord) {
    !IsBlank(record, "release_year") && !IsIntLiteral(FieldText(record, "release_year"))
  }

  /** The field holds text that `strptime` refuses. */
  predicate BadDateAdded(record: CsvRecord) {
    !IsBlank(record, "date_added") && ParseLongDate(FieldText(record, "date_added")).None?
  }

  /** A date is given but no release year to subtract. */
  predicate MissingReleaseYear(record: CsvRecord) {
    !IsBlank(record, "date_added") && IsBlank(record, "release_year")
  }

  /** The duration does not start with a number. */
  predicate BadDuration(record: CsvRecord) {
    !IsBlank(record, "duration") && !IsIntLiteral(DurationNumber(FieldText(record, "duration")))
  }

  /** The exception of the first failing step, in the order the source evaluates them. */
  function FirstError(record: CsvRecord): EnrichError {
    if BadReleaseYear(record) then InvalidLiteral(FieldText(record, "release_year"))
    else if BadDateAdded(record) then InvalidDate(FieldText(record, "date_added"))
    else if MissingReleaseYear(record) then ReleaseYearMissing
    else InvalidLiteral(DurationNumber(FieldText(record, "duration")))
  }

  /**
   * `enrich_record` raises exactly when one of the four conditions holds, and
   * the exception is the one of the first condition in evaluation order.
   */
  lemma EnrichFailure(record: CsvRecord)
    ensures EnrichRecord(record).Failure? <==>
      BadReleaseYear(record) || BadDateAdded(record) || MissingReleaseYear(record) || BadDuration(record)
    ensures EnrichRecord(record).Failure? ==> EnrichRecord(record).error == FirstError(record)
  {
    CombineFailure(StepsOf(record));
  }

  /** `release_year` is the parsed integer and `rating` the stripped text, or None when blank. */
  lemma EnrichedReleaseYearAndRating(record: CsvRecord, out: Record)
    requires EnrichRecord(record) == Success(out)
    ensures !IsBlank(record, "release_year") ==> ParseInt(FieldText(record, "release_year")).Some?
    ensures out["release_year"] ==
      if IsBlank(record, "release_year") then Null else IntValue(ParseInt(FieldText(record, "release_year")))
    ensures out["rating"] == if IsBlank(record, "rating") then Null else Str(FieldText(record, "rating"))
  {
    var e := DerivedValues(record, out);
    CombineSuccess(StepsOf(record), e);
  }

  /** The five date fields: all None for a blank date, otherwise read off the parsed date. */
  lemma EnrichedDateFields(record: CsvRecord, out: Record)
    requires EnrichRecord(record) == Success(out)
    ensures IsBlank(record, "date_added") ==>
      out["date_added"] == Null && out["added_year"] == Null && out["added_month"] == Null
      && out["added_day_of_month"] == Null && out["added_day_of_week"] == Null
    ensures !IsBlank(record, "date_added") ==>
      var parsed := ParseLongDate(FieldText(record, "date_added"));
      parsed.Some? && Valid(parsed.value)
      && out["date_added"] == Str(IsoText(parsed.value))
      && out["added_year"] == Int(parsed.value.year)
      && out["added_month"] == Int(parsed.value.month)
      && out["added_day_of_month"] == Int(parsed.value.day)
      && out["added_day_of_week"] == Int(IsoWeekday(parsed.value))
  {
    var e := DerivedValues(record, out);
    CombineSuccess(StepsOf(record), e);
  }

  /** `years_after_release` is None without a date, otherwise the year added minus the release year. */
  lemma EnrichedYearsAfterRelease(record: CsvRecord, out: Record)
    requires EnrichRecord(record) == Success(out)
    ensures IsBlank(record, "date_added") <==> out["years_after_release"] == Null
    ensures !IsBlank(record, "date_added") ==>
      var added := ParseLongDate(FieldText(record, "date_added"));
      var released := ParseInt(FieldText(record, "release_year"));
      added.Some? && released.Some? && out["years_after_release"] == Int(added.value.year - released.value)
  {
    var e := DerivedValues(record, out);
    CombineSuccess(StepsOf(record), e);
    if !IsBlank(record, "date_added") {
      YearsOfSteps(record, e, out["years_after_release"]);
    }
  }

  /** `years_after_release` from the results of the steps it depends on. */
  lemma YearsOfSteps(record: CsvRecord, e: Enrichment, years: Value)
    requires ApplyIfNotNull(record, "release_year", ParseInteger) == Success(e.releaseYear)
    requires ApplyIfNotNull(record, "date_added", ParseDateAdded) == Success(e.dateAdded)
    requires YearsAfterRelease(e.dateAdded, e.releaseYear) == Success(e.yearsAfterRelease)
    requires years == IntValue(e.yearsAfterRelease)
    requires !IsBlank(record, "date_added")
    ensures ParseLongDate(FieldText(record, "date_added")).Some?
    ensures ParseInt(FieldText(record, "release_year")).Some?
    ensures years == Int(ParseLongDate(FieldText(record, "date_added")).value.year - ParseInt(FieldText(record, "release_year")).value)
  {
    YearsOfParses(ParseLongDate(FieldText(record, "date_added")), ParseInt(FieldText(record, "release_year")),
      e.dateAdded, e.releaseYear, e.yearsAfterRelease);
  }

  /** The same, over the parsed values alone, so that no parser is unfolded. */
  lemma YearsOfParses(parsedDate: Option<Date>, parsedYear: Option<int>,
                      added: Option<Date>, released: Option<int>, years: Option<int>)
    requires added.Some? && parsedDate == added
    requires released.Some? ==> parsedYear == released
    requires YearsAfterRelease(added, released) == Success(years)
    ensures parsedDate.Some? && parsedYear.Some?
    ensures IntValue(years) == Int(parsedDate.value.year - parsedYear.value)
  {
  }

  /** The source column and the output key of each comma-separated list. */
  predicate IsListColumn(column: string, key: string) {
    (column, key) in {("director", "directors"), ("cast", "casts"),
      ("country", "producer_countries"), ("listed_in", "categories")}
  }

  /** A list field is None when blank, otherwise the stripped comma-separated parts. */
  lemma EnrichedListField(record: CsvRecord, out: Record, column: string, key: string)
    requires EnrichRecord(record) == Success(out)
    requires IsListColumn(column, key)
    ensures out[key] ==
      if IsBlank(record, column) then Null else StrList(SplitByComma(FieldText(record, column)))
  {
    var e := DerivedValues(record, out);
    CombineSuccess(StepsOf(record), e);
  }

  /**
   * `movie_duration` and `tv_series_seasons` are both None for a blank
   * duration; otherwise each is the leading number when its unit matches.
   */
  lemma EnrichedDurationFields(record: CsvRecord, out: Record)
    requires EnrichRecord(record) == Success(out)
    ensures IsBlank(record, "duration") ==> out["movie_duration"] == Null && out["tv_series_seasons"] == Null
    ensures !IsBlank(record, "duration") ==>
      var text := FieldText(record, "duration");
      var n := ParseInt(DurationNumber(text));
      n.Some?
      && out["movie_duration"] == (if Contains(DurationUnit(text), "min") then Int(n.value) else Null)
      && out["tv_series_seasons"] == (if Contains(DurationUnit(text), "seasons") then Int(n.value) else Null)
  {
    var e := DerivedValues(record, out);
    CombineSuccess(StepsOf(record), e);
  }

  /** The raw columns survive unless a derived field of the same name overrides them. */
  lemma EnrichedKeepsRawFields(record: CsvRecord, out: Record)
    requires EnrichRecord(record) == Success(out)
    ensures out.Keys == record.Keys + DerivedKeys
    ensures forall k :: k in record && k !in DerivedKeys ==> out[k] == Str(record[k])
  {
    var e := Enrich(record).value;
    var derived := DerivedFields(e);
    assert out == Lift(record) + derived;
    LiftThenOverride(record, derived);
  }

  /** `{**record, **derived}` on string columns: every raw column stays unless `derived` names it. */
  lemma LiftThenOverride(record: CsvRecord, derived: Record)
    ensures (Lift(record) + derived).Keys == record.Keys + derived.Keys
    ensures forall k :: k in record && k !in derived ==> (Lift(record) + derived)[k] == Str(record[k])
  {
  }
}
