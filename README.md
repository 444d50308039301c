# Streaming catalogue data preparation, modelled in Dafny

This project models the core of `step_01_prepare_data.py`, the first stage of a
pipeline over the title catalogues of several streaming platforms. The stage
has three parts.

- **Merger** (`merge_input_data`). Every row of every extracted
  `<platform>_titles.csv` file is tagged with its platform and with a
  `listing_id` of the form `<platform>-<show_id>`. The tagged rows of all files
  are concatenated, in file order and row order. `Merger.MergeInputData` is
  the loop. `Merger.Merged` is the function it is proved against.
- **Enricher** (`enrich_record`). One merged row becomes an enriched record.
  Each derived field is None for a missing or blank column. Otherwise it is
  computed from the stripped text:
  - the release year and the rating;
  - the date added, as ISO text plus its year, month, day and ISO weekday;
  - the years between release and addition;
  - four comma-separated lists;
  - a movie duration or a season count, read from the `duration` column.

  The derived fields override raw columns of the same name. The exceptions
  the source lets through are the `Failure` cases of a `Result`:
  - `int()` on a bad number;
  - `strptime` on a bad date;
  - the `TypeError` of `date.year - None`.
- **Normaliser** (`normalise_records`, without its file writes). It builds a
  16-column `listings` projection, one row per record in input order. It also
  builds four join tables: listing to director, cast member, producer country
  and category. `Normaliser.NormaliseRecords` is the loop. Each record
  contributes one contiguous block of rows, holding each distinct value of its
  list field exactly once. The order inside a block is unspecified because it
  is Python's `set` order. The model picks an arbitrary remaining element at
  each step, and the block is specified as a multiset.

The supporting modules:
- `Text` models the Python string built-ins the code uses: `strip`, `split`,
  `split(" ", 1)`, `lower`, `in`, `int()` and zero-padded rendering.
- `Calendar` models the proleptic Gregorian calendar of `datetime.date`:
  validity, `toordinal`, `weekday() + 1`, `isoformat` and
  `strptime(s, "%B %d, %Y")`.
- `Records` holds the record shapes.
- `Pipeline` connects the stages: every tagged row that `enrich_record`
  accepts is a record the normaliser accepts.

Behaviour of the code worth knowing; each case below is proved:
- A present date with a blank release year raises `TypeError`; it does not give
  a null `years_after_release` (`Enricher.EnrichedYearsAfterRelease`,
  `Enricher.EnrichFailure`).
- `movie_duration` and `tv_series_seasons` can both be set, for a unit that
  contains both `min` and `seasons` (`Enricher.BothUnitsExample`).
- `"1 Season"` gives no season count (`Enricher.OneSeasonExample`).
- Each record's join rows form one contiguous block
  (`Normaliser.JoinTableBlock`).
- Platform labels keep the file name's underscores: `amazon_prime_titles.csv`
  gives `amazon_prime` (`Merger.AmazonPrimePlatform`).
- Thirty February and other impossible dates are an error, like any text
  `strptime` refuses (`Calendar.ImpossibleDate`, `Calendar.MakeDate`).
- The date format is lenient: `"september 05,  2021"` is accepted as
  5 September 2021, whatever the case of the month name, the zero padding of
  the day or the width of the whitespace (`Calendar.ParseLongDateComplete`,
  `Calendar.LenientParseExample`).

## Model

| member | source | states |
|---|---|---|
| Merger.RemovePrefix | step_01_prepare_data.py:41 | `removeprefix`: the prefix followed by the result is the input when the prefix is present; otherwise the input is unchanged |
| Merger.RemoveSuffix | step_01_prepare_data.py:41 | `removesuffix`: the result followed by the suffix is the input when the suffix is present; otherwise the input is unchanged |
| Merger.PlatformOfTitlesFile | step_01_prepare_data.py:41 | a path `data/extracted/<p>_titles.csv` or `data/extracted\<p>_titles.csv` gives the platform `p` (for `p` without a backslash) |
| Merger.AmazonPrimePlatform | step_01_prepare_data.py:41 | `amazon_prime_titles.csv` gives `amazon_prime`: the underscore is kept |
| Merger.Tag | step_01_prepare_data.py:42 | a tagged row has the row's columns plus `listing_id` and `platform`; the row's own columns win; absent ones are `<platform>-<show_id>` and the platform |
| Merger.TagFile | step_01_prepare_data.py:42 | one tagged row per CSV row, in row order |
| Merger.Platform | step_01_prepare_data.py:41 | the platform of a file path; specified by `Merger.PlatformOfTitlesFile` and `Merger.AmazonPrimePlatform` |
| Merger.ShowIdText | step_01_prepare_data.py:42 | `str(record.get("show_id"))`: the column's text, or `None` when it is missing; used by `Merger.Tag` and `Merger.ListingIdInjective` |
| Merger.ListingId | step_01_prepare_data.py:42 | `<platform>-<show_id>`; `Merger.ListingIdInjective` and `Merger.ListingIdCollision` state when it tells listings apart |
| Merger.Merged | step_01_prepare_data.py:38-45 | the files' tagged rows one file after another; specified by `Merger.MergedLength` and `Merger.MergedAt` |
| Merger.MergeInputData | step_01_prepare_data.py:38-45 | the loop's result is the concatenation of the files' tagged rows, and its length is the total row count |
| Merger.MergedLength | step_01_prepare_data.py:38-45 | the merged output has as many rows as the files together |
| Merger.MergedAt | step_01_prepare_data.py:39-43 | row `j` of file `f`, tagged with `f`'s platform, sits at position (rows of the files before `f`) + `j`: file order and row order are kept |
| Merger.ListingIdInjective | step_01_prepare_data.py:42 | when platform names have no `-`, equal listing ids mean equal platforms and equal show ids |
| Merger.ListingIdCollision | step_01_prepare_data.py:42 | with a `-` in a platform name, two different (platform, show id) pairs share a listing id |
| Text.Strip | step_01_prepare_data.py:52 | `strip()`: empty iff the text is all whitespace; otherwise the text between leading and trailing whitespace runs, starting and ending with non-whitespace |
| Text.Split | step_01_prepare_data.py:59 | `split(",")` yields at least one part and no part holds the separator |
| Text.SplitCount | step_01_prepare_data.py:59 | a split has one part more than the text has separators |
| Text.JoinSplit | step_01_prepare_data.py:59 | joining the parts with the separator gives back the text |
| Text.SplitAtFirst | step_01_prepare_data.py:59 | the split of `a,b` with no separator in `a` is `a` followed by the split of `b` |
| Text.SplitOnce | step_01_prepare_data.py:62 | `split(" ", 1)`: one part (the text) iff there is no space; otherwise the text before the first space and the rest |
| Text.Lower | step_01_prepare_data.py:63 | `lower()`: same length, each character lower-cased (ASCII) |
| Text.Contains | step_01_prepare_data.py:67 | `sub in s` iff `sub` occurs in `s` at some position |
| Text.ParseInt | step_01_prepare_data.py:74 | `int()` succeeds iff the text is an optional sign and one or more digits |
| Text.IntTextRoundTrip | step_01_prepare_data.py:74 | `int(str(n)) == n` for every integer |
| Text.ParseDigits | step_01_prepare_data.py:63 | `int()` of a digit string is its decimal value |
| Text.ParseSigned | step_01_prepare_data.py:74 | `int()` of `-` or `+` followed by digits is the negated or the plain decimal value (`"-05"` is -5) |
| Text.PadDigits | step_01_prepare_data.py:87 | zero-padded rendering has exactly the width, only digits, and denotes the number |
| Text.PadDigitsOfText | step_01_prepare_data.py:87 | padding a digit string's value to its own length gives the string back |
| Text.NatTextOfText | step_01_prepare_data.py:76 | rendering the value of a digit string without leading zeros gives the string back |
| Text.TrimStart | step_01_prepare_data.py:76 | leading whitespace removed: the result is a suffix, preceded only by whitespace, and starts with non-whitespace |
| Calendar.Ordinal | step_01_prepare_data.py:91 | `toordinal()`; specified by `Calendar.FirstOrdinal` (0001-01-01 is day 1), `Calendar.OrdinalOfNextDay` and `Calendar.DaysInYear` (consecutive days have consecutive ordinals) |
| Calendar.FirstOrdinal | step_01_prepare_data.py:91 | `toordinal()` gives 1 for 0001-01-01 |
| Calendar.IsoWeekday | step_01_prepare_data.py:91 | `weekday() + 1` lies in 1..7 |
| Calendar.WeekdayOfNextDay | step_01_prepare_data.py:91 | the next day's weekday is the following one, Sunday (7) wrapping to Monday (1) |
| Calendar.OrdinalOfNextDay | step_01_prepare_data.py:91 | `toordinal` counts days: the next day has the next ordinal |
| Calendar.DaysInYear | step_01_prepare_data.py:91 | a year adds 366 days to the ordinal when it is a leap year and 365 otherwise |
| Calendar.KnownWeekdays | step_01_prepare_data.py:91 | 2021-09-25 is weekday 6 (Saturday) and 2024-01-01 weekday 1 (Monday) |
| Calendar.IsoText | step_01_prepare_data.py:87 | `isoformat()[:10]`: ten characters `YYYY-MM-DD` whose digit fields denote the year, month and day |
| Calendar.SeptemberIsoExample | step_01_prepare_data.py:87 | 25 September 2021 renders as `2021-09-25` |
| Calendar.MonthNumber | step_01_prepare_data.py:76 | `%B`: the month whose name matches the text ignoring case, or None iff no month name matches |
| Calendar.MonthNamesDistinct | step_01_prepare_data.py:76 | no two month names match each other |
| Calendar.ParseLongDate | step_01_prepare_data.py:76 | a parsed date is a valid date |
| Calendar.ParseDayAndYear | step_01_prepare_data.py:76 | the `%d, %Y` part yields only valid dates in the given month |
| Calendar.MakeDate | step_01_prepare_data.py:76 | a date exactly when the day has one or two digits, the year four, and the date they denote with the month exists; that date is the result |
| Calendar.ImpossibleDate | step_01_prepare_data.py:76 | the well-formed fields of 30 February 2021 give no date: `strptime` raises |
| Calendar.ParseLongDateSound | step_01_prepare_data.py:76 | every accepted text is a month name (ignoring case), whitespace, a 1-2 digit day, a comma, whitespace and a 4-digit year, and the result is the valid date those fields denote |
| Calendar.ParseLongDateComplete | step_01_prepare_data.py:76 | the converse of `Calendar.ParseLongDateSound`: every text made of a month name in any ASCII case, whitespace, a 1-2 digit day, a comma, whitespace and a 4-digit year that denote a valid date is accepted, with that date |
| Calendar.LenientParseExample | step_01_prepare_data.py:76 | `"september 05,  2021"` parses to 5 September 2021 |
| Calendar.ParseLongText | step_01_prepare_data.py:76 | every valid date written in its canonical form `<Month> <day>, <year>` parses back to itself |
| Calendar.SeptemberParseExample | step_01_prepare_data.py:76 | `"September 25, 2021"` parses to 25 September 2021 |
| Enricher.ApplyIfNotNull | step_01_prepare_data.py:51-56 | None iff the field is missing or blank; otherwise the transform's result on the stripped text, or its failure |
| Enricher.OptionalText | step_01_prepare_data.py:75 | `rating` is None iff blank, otherwise the stripped text |
| Enricher.ParseInteger | step_01_prepare_data.py:74 | `int()` succeeds iff the text is an integer literal; otherwise the record fails with that text |
| Enricher.ParseDateAdded | step_01_prepare_data.py:76 | `strptime` succeeds iff the text parses, with a valid date; otherwise the record fails with that text |
| Enricher.SplitByComma | step_01_prepare_data.py:58-59 | one element per comma plus one, each the stripped text between commas, in order |
| Enricher.SplitByCommaPlain | step_01_prepare_data.py:58-59 | parts without whitespace come out unchanged |
| Enricher.SplitKeepsEmptyExample | step_01_prepare_data.py:58-59 | `"A,,B"` gives `["A", "", "B"]`: empty elements are kept |
| Enricher.SplitIfNotNull | step_01_prepare_data.py:78-81 | a list field is None iff blank, otherwise the comma split of the stripped text |
| Enricher.DurationUnit | step_01_prepare_data.py:62-63 | the unit is the lower-cased text after the first space, or the whole lower-cased text without a space |
| Enricher.GetDurationOrSeasons | step_01_prepare_data.py:61-63 | succeeds iff the text before the first space is an integer literal, giving that integer and the unit; fails with that text otherwise |
| Enricher.GetMovieDuration | step_01_prepare_data.py:65-67 | the number is returned iff the unit contains `min` |
| Enricher.GetTvSeriesSeasons | step_01_prepare_data.py:69-71 | the number is returned iff the unit contains `seasons` |
| Enricher.DurationParts | step_01_prepare_data.py:61-63 | `<number> <unit>` splits into the number and the lower-cased unit |
| Enricher.DurationFields | step_01_prepare_data.py:61-71 | for `<digits> <unit>`, the movie duration is the number iff the unit contains `min`, and the seasons are the number iff it contains `seasons` |
| Enricher.MovieDurationExample | step_01_prepare_data.py:65-71 | `"90 min"` gives a duration of 90 and no seasons |
| Enricher.SeasonsExample | step_01_prepare_data.py:65-71 | `"2 Seasons"` gives 2 seasons and no duration |
| Enricher.OneSeasonExample | step_01_prepare_data.py:69-71 | `"1 Season"` gives neither: `season` does not contain `seasons` |
| Enricher.NoUnitExample | step_01_prepare_data.py:62-71 | `"90"` takes itself as its unit and gives neither field |
| Enricher.BothUnitsExample | step_01_prepare_data.py:65-71 | `"3 minseasons"` sets both fields |
| Enricher.YearsAfterRelease | step_01_prepare_data.py:77 | None iff there is no date; fails iff there is a date but no release year; otherwise the year added minus the release year |
| Enricher.Enrich | step_01_prepare_data.py:76 | a successful enrichment holds only valid dates |
| Enricher.StepsOf | step_01_prepare_data.py:74-96 | the result of each step of `enrich_record`; `Enricher.CombineSuccess` and `Enricher.CombineFailure` state how they combine |
| Enricher.Combine | step_01_prepare_data.py:74-96 | the first exception in evaluation order, else the derived fields; specified by `Enricher.CombineSuccess` and `Enricher.CombineFailure` |
| Enricher.EnrichRecord | step_01_prepare_data.py:48-98 | `enrich_record`; specified by `Enricher.EnrichFailure` (when and how it raises) and the `Enricher.Enriched*` lemmas (each output field) |
| Enricher.DerivedFields | step_01_prepare_data.py:84-97 | the derived keys are exactly the fourteen the source writes |
| Enricher.CombineSuccess | step_01_prepare_data.py:74-96 | a successful record is made of the successful result of every step |
| Enricher.CombineFailure | step_01_prepare_data.py:74-96 | the steps fail iff one of them does; the error is the first one in evaluation order |
| Enricher.EnrichFailure | step_01_prepare_data.py:74-96 | `enrich_record` raises iff the release year is not an integer, the date does not parse, a date has no release year, or the duration has no leading integer; the exception is the first of these in evaluation order |
| Enricher.DerivedValues | step_01_prepare_data.py:82-98 | each derived key of the output holds its step's value |
| Enricher.EnrichedReleaseYearAndRating | step_01_prepare_data.py:74-75 | `release_year` is None when blank, otherwise the parsed integer; `rating` is None when blank, otherwise the stripped text |
| Enricher.EnrichedDateFields | step_01_prepare_data.py:87-91 | the five date fields are None together for a blank date; otherwise they are the ISO text, year, month, day and ISO weekday of the parsed date |
| Enricher.EnrichedYearsAfterRelease | step_01_prepare_data.py:77 | `years_after_release` is None iff the date is blank; otherwise it is the year added minus the parsed release year |
| Enricher.EnrichedListField | step_01_prepare_data.py:78-81 | each of the four list fields is None when its column is blank, otherwise the comma split of the stripped text |
| Enricher.EnrichedDurationFields | step_01_prepare_data.py:95-96 | both duration fields are None for a blank duration; otherwise each is the leading integer when its unit matches and None otherwise |
| Enricher.EnrichedKeepsRawFields | step_01_prepare_data.py:82-98 | the output keys are the raw columns plus the derived keys; every raw column not derived keeps its text |
| Enricher.LiftThenOverride | step_01_prepare_data.py:82-83 | `{**record, **derived}` keeps every raw column that `derived` does not name |
| Normaliser.ListingRow | step_01_prepare_data.py:109-126 | a listing row has exactly the 16 keys, each with the record's value or None when absent |
| Normaliser.Listings | step_01_prepare_data.py:109-126 | one listing row per record, same length and order |
| Normaliser.ValueSet | step_01_prepare_data.py:136-139 | `set(r.get(key) or [])` holds exactly the values of the list field |
| Normaliser.AppendBlock | step_01_prepare_data.py:140-141 | appending one row per set element keeps the table and adds a block holding each value once, all with the listing id |
| Normaliser.JoinTableSnoc | step_01_prepare_data.py:134-147 | a join table followed by the next record's block is the join table of the records so far |
| Normaliser.AppendRecordBlock | step_01_prepare_data.py:135-147 | one loop turn extends a join table of the records so far by the next record |
| Normaliser.NormaliseRecords | step_01_prepare_data.py:106-147 | the listings are the projection, and each of the four tables is the join table of the records for its list field |
| Normaliser.JoinTableLength | step_01_prepare_data.py:134-147 | a join table has one row per distinct value of each record |
| Normaliser.JoinTableBlock | step_01_prepare_data.py:134-147 | record `i`'s rows are one contiguous block after those of the records before it, holding its listing id and its distinct values |
| Normaliser.BlockHasNoDuplicates | step_01_prepare_data.py:136-147 | no `(listing_id, value)` row repeats within a block |
| Normaliser.BlockValues | step_01_prepare_data.py:136-147 | a value has a row in the record's block iff it is in the record's list field |
| Normaliser.DuplicateValuesCollapse | step_01_prepare_data.py:136 | `["A", "B", "A"]` contributes two rows |
| Normaliser.NullListContributesNothing | step_01_prepare_data.py:136-139 | a None or missing list field contributes no rows |
| Pipeline.ListShapedIsNormalisable | step_01_prepare_data.py:135-139 | a record with a `listing_id` and None or a list under each list key is one `normalise_records` accepts |
| Pipeline.EnrichedIsNormalisable | step_01_prepare_data.py:82-98 | an enriched record whose row had a `listing_id` is accepted by `normalise_records` and keeps that `listing_id` and `platform` |
| Pipeline.EnrichedTaggedRow | step_01_prepare_data.py:42 | a tagged, enriched row is accepted by `normalise_records`, and its listing carries the merge step's `listing_id` and `platform` unless the CSV had its own |

## Left out

- Finding and reading the files (`glob`, `open`, `csv.DictReader`) are left out. `Merger.MergeInputData` takes each file as its path and its parsed rows, in the order `glob` yields them.
- CSV rows are maps from column to text. `csv.DictReader`'s `None` values for short rows, and its extra-column key for long rows, are not modelled.
- The download, unzip and directory set-up functions and the `__main__` pipeline are left out. They are file, network and archive I/O with no decisions.
- `write_enriched_records` and every `json.dumps`/file write in `normalise_records` are left out. They are serialisation through a library plus disk I/O. `Normaliser.NormaliseRecords` returns the five tables instead.
- Dictionary key order is not modelled: records are maps.
- Text.ParseInt: `int()` accepts an optional sign and ASCII digits only. It leaves out Unicode digits, `_` separators and surrounding whitespace. Every call site strips the text first.
- Text.ParseInt: `int()` raises ValueError for a literal of more than 4300 digits (Python's integer string conversion limit); the model parses any length.
- Text.Lower: lower-cases ASCII letters only. It is used on duration units and month names. For the units this is harmless: outside ASCII, Python's `lower()` maps only U+0130 (to `i` followed by U+0307) and U+212A (to `k`) onto ASCII letters, and neither can create or remove a `min` or `seasons` in a unit. For month names, see the `Calendar.ParseLongDate` line below.
- Calendar.ParseLongDate: follows a simplified `strptime` grammar:
  - an English month name matched ignoring ASCII case;
  - one or more whitespace characters;
  - a 1-2 digit day;
  - a comma;
  - whitespace;
  - a four-digit year.

  Locale-dependent month names are not modelled, and the day and year fields take ASCII digits only: `strptime`'s `%d` and `%Y` also accept any Unicode decimal digit.
- Python's `set` iteration order is not modelled. `Normaliser.AppendBlock` picks any remaining value, and its contract holds for every order.
- Normaliser.NormaliseRecords: requires every record to have `listing_id` and to hold None or a list under each list key. The `KeyError` of a missing `listing_id`, and `set()` over a string or a number, are outside the model. `Pipeline.EnrichedIsNormalisable` proves that enriched rows with a `listing_id` meet the requirement.
- Enricher.ApplyIfNotNull: the transform is a function returning a `Result` rather than a Python callable that may raise. Only the transforms the source passes are modelled.
- Calendar.ParseLongDate: its own contract states only that a parsed date is valid, because a statement of the grammar would repeat its body. `Calendar.ParseLongDateSound` proves that every accepted text has the long form and denotes the date returned, and `Calendar.ParseLongDateComplete` proves the converse: every text of the long form that denotes a valid date is accepted with that date.
- Calendar.ParseDayAndYear: its contract states only validity and the month, because it is a step of `Calendar.ParseLongDate`; `Calendar.ParseLongDateSound` and `Calendar.ParseLongDateComplete` together state exactly what the whole parse accepts and returns.
- Enricher.Enrich: its contract states only that dates in a successful enrichment are valid. `Enricher.CombineSuccess` and `Enricher.CombineFailure` state what it computes.
- Text.Split: its contract states the part count bound and that no part holds the separator. `Text.JoinSplit` and `Text.SplitCount` complete it.
