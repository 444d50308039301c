/**
 * Proleptic Gregorian dates as Python's `datetime.date` has them: validity,
 * the day ordinal of `date.toordinal()`, the ISO weekday, `date.isoformat()`
 * and `datetime.strptime(text, "%B %d, %Y")`.
 */
module Calendar {
  import opened Wrappers
  import opened Text

  datatype Date = Date(year: int, month: int, day: int)

  predicate IsLeapYear(y: int) {
    y % 4 == 0 && (y % 100 != 0 || y % 400 == 0)
  }

  function DaysInMonth(y: int, m: int): int
    requires 1 <= m <= 12
  {
    if m == 2 then (if IsLeapYear(y) then 29 else 28)
    else if m == 4 || m == 6 || m == 9 || m == 11 then 30
    else 31
  }

  /** The dates `datetime.date` can represent: years 1 to 9999. */
  predicate Valid(d: Date) {
    1 <= d.year <= 9999 && 1 <= d.month <= 12 && 1 <= d.day <= DaysInMonth(d.year, d.month)
  }

  /** Days in the years before `y`. */
  function DaysBeforeYear(y: int): int
    requires y >= 1
  {
    var p := y - 1;
    p * 365 + p / 4 - p / 100 + p / 400
  }

  /** Days in a common year before the first of each month (index 1 to 12). */
  const DaysBeforeMonthInCommonYear: seq<int> := [0, 0, 31, 59, 90, 120, 151, 181, 212, 243, 273, 304, 334]

  /** Days in year `y` before the first of month `m`. */
  function DaysBeforeMonth(y: int, m: int): int
    requires 1 <= m <= 12
  {
    DaysBeforeMonthInCommonYear[m] + (if m > 2 && IsLeapYear(y) then 1 else 0)
  }

  /** `date.toordinal()`: 0001-01-01 is day 1. */
  function Ordinal(d: Date): int
    requires Valid(d)
  {
    DaysBeforeYear(d.year) + DaysBeforeMonth(d.year, d.month) + d.day
  }

  /** The ordinal count starts at 0001-01-01, which is day 1. */
  lemma FirstOrdinal()
    ensures Ordinal(Date(1, 1, 1)) == 1
  {
  }

  /** `date.weekday() + 1`: Monday is 1 and Sunday is 7. */
  function IsoWeekday(d: Date): (w: int)
    requires Valid(d)
    ensures 1 <= w <= 7
  {
    (Ordinal(d) + 6) % 7 + 1
  }

  /** The day after `d`. */
  function NextDay(d: Date): (n: Date)
    requires Valid(d) && d != Date(9999, 12, 31)
    ensures Valid(n)
  {
    if d.day < DaysInMonth(d.year, d.month) then Date(d.year, d.month, d.day + 1)
    else if d.month < 12 then Date(d.year, d.month + 1, 1)
    else Date(d.year + 1, 1, 1)
  }

  /** A year has 366 days when it is a leap year and 365 otherwise. */
  lemma DaysInYear(y: int)
    requires y >= 1
    ensures DaysBeforeYear(y + 1) - DaysBeforeYear(y) == if IsLeapYear(y) then 366 else 365
  {
    var p := y - 1;
    QuotientStep(y, 4);
    QuotientStep(y, 100);
    QuotientStep(y, 400);
    assert (p + 1) * 365 == p * 365 + 365;
  }

  /** Going from `y - 1` to `y` raises `y / n` by one exactly when `n` divides `y`. */
  lemma QuotientStep(y: int, n: int)
    requires n == 4 || n == 100 || n == 400
    ensures y / n - (y - 1) / n == if y % n == 0 then 1 else 0
  {
    var q, r := y / n, y % n;
    assert y == n * q + r && 0 <= r < n;
    if r == 0 {
      assert y - 1 == n * (q - 1) + (n - 1);
    } else {
      assert y - 1 == n * q + (r - 1);
    }
  }

  /** The ordinal counts days: the next day has the next ordinal. */
  lemma OrdinalOfNextDay(d: Date)
    requires Valid(d) && d != Date(9999, 12, 31)
    ensures Ordinal(NextDay(d)) == Ordinal(d) + 1
  {
    if d.day == DaysInMonth(d.year, d.month) && d.month == 12 {
      DaysInYear(d.year);
    }
  }

  /** 2021-09-25 was a Saturday and 2024-01-01 a Monday. */
  lemma KnownWeekdays()
    ensures IsoWeekday(Date(2021, 9, 25)) == 6
    ensures IsoWeekday(Date(2024, 1, 1)) == 1
  {
    assert DaysBeforeYear(2021) == 737790;
    assert DaysBeforeMonth(2021, 9) == 243;
    assert Ordinal(Date(2021, 9, 25)) == 738058;
    assert DaysBeforeYear(2024) == 738885;
    assert Ordinal(Date(2024, 1, 1)) == 738886;
  }

  /** Each day after the first is the weekday after its predecessor's. */
  lemma WeekdayOfNextDay(d: Date)
    requires Valid(d) && d != Date(9999, 12, 31)
    ensures IsoWeekday(NextDay(d)) == IsoWeekday(d) % 7 + 1
  {
    OrdinalOfNextDay(d);
    WeekdayStep(Ordinal(d));
  }

  /** The weekday formula advances by one, wrapping from Sunday (7) to Monday (1). */
  lemma WeekdayStep(o: int)
    ensures (o + 1 + 6) % 7 + 1 == ((o + 6) % 7 + 1) % 7 + 1
  {
    var q := (o + 6) % 7;
    assert o + 6 == 7 * ((o + 6) / 7) + q;
    assert o + 7 == 7 * ((o + 6) / 7) + (q + 1);
    if q == 6 {
      assert (o + 7) % 7 == 0;
    } else {
      assert (o + 7) % 7 == q + 1;
    }
  }

  /** `date.isoformat()`: `YYYY-MM-DD`, each component zero-padded. */
  function IsoText(d: Date): (r: string)
    requires Valid(d)
    ensures |r| == 10 && r[4] == '-' && r[7] == '-'
    ensures AllDigits(r[..4]) && AllDigits(r[5..7]) && AllDigits(r[8..])
    ensures DigitsValue(r[..4]) == d.year
    ensures DigitsValue(r[5..7]) == d.month
    ensures DigitsValue(r[8..]) == d.day
  {
    var y, m, dd := PadDigits(d.year, 4), PadDigits(d.month, 2), PadDigits(d.day, 2);
    var r := y + "-" + m + "-" + dd;
    assert r[..4] == y && r[5..7] == m && r[8..] == dd;
    r
  }

  const MonthNames: seq<string> := ["January", "February", "March", "April", "May", "June",
    "July", "August", "September", "October", "November", "December"]

  /** The number of the month whose full English name is `text`, ignoring ASCII case (`%B`). */
  function MonthNumber(text: string): (r: Option<int>)
    ensures r.Some? ==> 1 <= r.value <= 12 && Lower(text) == Lower(MonthNames[r.value - 1])
    ensures r.None? ==> forall k :: 0 <= k < 12 ==> Lower(text) != Lower(MonthNames[k])
  {
    MonthFrom(text, 0)
  }

  function MonthFrom(text: string, k: nat): (r: Option<int>)
    requires k <= 12
    ensures r.Some? ==> k < r.value <= 12 && Lower(text) == Lower(MonthNames[r.value - 1])
    ensures r.None? ==> forall j :: k <= j < 12 ==> Lower(text) != Lower(MonthNames[j])
    decreases 12 - k
  {
    if k == 12 then None
    else if Lower(text) == Lower(MonthNames[k]) then Some(k + 1)
    else MonthFrom(text, k + 1)
  }

  /**
   * `datetime.strptime(s, "%B %d, %Y").date()`: a month name, whitespace,
   * a day of one or two digits between 1 and 31, a comma, whitespace and a
   * four-digit year, with nothing after it; then the date must exist.
   * None where Python raises ValueError.
   */
  function ParseLongDate(s: string): (r: Option<Date>)
    ensures r.Some? ==> Valid(r.value)
  {
    var i :- IndexOfSpace(s);
    var month :- MonthNumber(s[..i]);
    ParseDayAndYear(month, TrimStart(s[i..]))
  }

  /** The `%d, %Y` part of the format, after the month name and its whitespace. */
  function ParseDayAndYear(month: int, s: string): (r: Option<Date>)
    requires 1 <= month <= 12
    ensures r.Some? ==> Valid(r.value) && r.value.month == month
  {
    var j :- IndexOf(s, ',');
    var after := s[j + 1..];
    var yearText := TrimStart(after);
    if |yearText| < |after| then MakeDate(s[..j], month, yearText) else None
  }

  /** The date a day field and a year field denote, if they have the right digits and it exists. */
  function MakeDate(dayText: string, month: int, yearText: string): (r: Option<Date>)
    requires 1 <= month <= 12
    ensures r.Some? ==> Valid(r.value) && r.value.month == month
    ensures r.Some? ==>
      FieldsShape(dayText, yearText) && r.value == Date(DigitsValue(yearText), month, DigitsValue(dayText))
    ensures r.Some? <==>
      (FieldsShape(dayText, yearText) && Valid(Date(DigitsValue(yearText), month, DigitsValue(dayText))))
  {
    if FieldsShape(dayText, yearText) then
      var d := Date(DigitsValue(yearText), month, DigitsValue(dayText));
      DigitsValueBound(yearText);
      if 1 <= d.year && 1 <= d.day <= 31 && d.day <= DaysInMonth(d.year, d.month) then Some(d)
      else None
    else None
  }

  /** A day field of one or two digits and a year field of four, as `%d` and `%Y` match them. */
  predicate FieldsShape(dayText: string, yearText: string) {
    1 <= |dayText| <= 2 && AllDigits(dayText) && |yearText| == 4 && AllDigits(yearText)
  }

  /** Well-formed fields that name a day the month does not have give no date: 30 February 2021. */
  lemma ImpossibleDate(dayText: string, yearText: string)
    requires dayText == "30" && yearText == "2021"
    ensures MakeDate(dayText, 2, yearText) == None
  {
    assert dayText[..1] == "3" && "3"[..0] == "";
    assert DigitsValue(dayText) == 30;
  }

  /** `date.strftime("%B %-d, %Y")`: the form the source data writes dates in. */
  function LongText(d: Date): string
    requires Valid(d)
  {
    MonthNames[d.month - 1] + " " + NatText(d.day) + ", " + PadDigits(d.year, 4)
  }

  /** No two month names are equal once lower-cased. */
  lemma MonthNamesDistinct(j: int, k: int)
    requires 0 <= j < 12 && 0 <= k < 12
    requires Lower(MonthNames[j]) == Lower(MonthNames[k])
    ensures j == k
  {
    var a, b := Lower(MonthNames[j]), Lower(MonthNames[k]);
    assert |MonthNames[j]| == |MonthNames[k]|;
    assert a[0] == b[0];
    if |a| == 4 {
      assert a[2] == b[2];
    }
  }

  /** Month names are made of letters. */
  lemma MonthNameHasNoSpace(m: int)
    requires 1 <= m <= 12
    ensures NoSpace(MonthNames[m - 1])
  {
  }

  /** A month name, one space and a field that starts with no whitespace: the rest is parsed as day and year. */
  lemma ParseAfterMonth(name: string, m: int, t: string)
    requires 1 <= m <= 12 && name == MonthNames[m - 1]
    requires t != [] && !IsSpace(t[0])
    ensures ParseLongDate(name + " " + t) == ParseDayAndYear(m, t)
  {
    MonthThenField(name, m, t);
    ParseLongDateAt(name + " " + t, |name|, m);
  }

  /** In a month name, one space and a field, the first space ends the month name and the field follows it. */
  lemma MonthThenField(name: string, m: int, t: string)
    requires 1 <= m <= 12 && name == MonthNames[m - 1]
    requires t != [] && !IsSpace(t[0])
    ensures var s := name + " " + t;
      IndexOfSpace(s) == Some(|name|) && MonthNumber(s[..|name|]) == Some(m) && TrimStart(s[|name|..]) == t
  {
    MonthNameHasNoSpace(m);
    WordThenField(name, t);
    MonthNumberOfName(m);
  }

  /** A word with no whitespace, one space and a field: the first space ends the word and the field follows it. */
  lemma WordThenField(word: string, t: string)
    requires NoSpace(word)
    requires t != [] && !IsSpace(t[0])
    ensures var s := word + " " + t;
      IndexOfSpace(s) == Some(|word|) && s[..|word|] == word && TrimStart(s[|word|..]) == t
  {
    var s := word + " " + t;
    assert s == word + [' '] + t;
    IndexOfSpaceAfter(word, ' ', t);
    assert s[..|word|] == word;
    assert s[|word|..] == [' '] + t;
    TrimStartOneSpace(' ', t);
  }

  /** The parse once the first space and the month are known. */
  lemma ParseLongDateAt(s: string, i: nat, m: int)
    requires IndexOfSpace(s) == Some(i) && i <= |s|
    requires MonthNumber(s[..i]) == Some(m)
    ensures ParseLongDate(s) == ParseDayAndYear(m, TrimStart(s[i..]))
  {
  }

  /** Each month name is recognised as its own month. */
  lemma MonthNumberOfName(m: int)
    requires 1 <= m <= 12
    ensures MonthNumber(MonthNames[m - 1]) == Some(m)
  {
    match MonthNumber(MonthNames[m - 1])
    case None =>
    case Some(m') =>
      MonthNamesDistinct(m' - 1, m - 1);
  }

  /** Digits, a comma, one space and a field that starts with no whitespace: the day and the year fields. */
  lemma ParseDayCommaYear(m: int, dayText: string, yearText: string)
    requires 1 <= m <= 12
    requires AllDigits(dayText)
    requires yearText != [] && !IsSpace(yearText[0])
    ensures ParseDayAndYear(m, dayText + ", " + yearText) == MakeDate(dayText, m, yearText)
  {
    var s := dayText + ", " + yearText;
    assert s == dayText + [','] + (" " + yearText);
    IndexOfAfter(dayText, ',', " " + yearText);
    assert s[..|dayText|] == dayText;
    assert s[|dayText| + 1..] == [' '] + yearText;
    TrimStartOneSpace(' ', yearText);
  }

  /** A text in the form `strptime` accepts: month name, whitespace, day, comma, whitespace, year. */
  function LongForm(month: string, gap1: string, dayText: string, gap2: string, yearText: string): string {
    month + gap1 + dayText + "," + gap2 + yearText
  }

  /** The pieces of a `LongForm` text that denote the date `d`. */
  predicate DenotesDate(month: string, gap1: string, dayText: string, gap2: string, yearText: string, d: Date) {
    && Valid(d)
    && Lower(month) == Lower(MonthNames[d.month - 1])
    && gap1 != [] && AllSpace(gap1)
    && gap2 != [] && AllSpace(gap2)
    && FieldsShape(dayText, yearText)
    && d == Date(DigitsValue(yearText), d.month, DigitsValue(dayText))
  }

  /**
   * Every text `strptime` accepts has the long form, and the date it gives is
   * the one its month name and digit fields denote.
   */
  lemma ParseLongDateSound(s: string, d: Date)
    requires ParseLongDate(s) == Some(d)
    ensures exists month, gap1, dayText, gap2, yearText ::
      s == LongForm(month, gap1, dayText, gap2, yearText) && DenotesDate(month, gap1, dayText, gap2, yearText, d)
  {
    var i, t, j := ParseLongDateSteps(s, d);
    var month, gap1, dayText, gap2, yearText := LongFormPieces(s, i, t, j);
    MakeDateOfPieces(month, gap1, dayText, gap2, yearText, d);
  }

  /** The positions `ParseLongDate` finds in a text it accepts. */
  lemma ParseLongDateSteps(s: string, d: Date) returns (i: nat, t: string, j: nat)
    requires ParseLongDate(s) == Some(d)
    ensures i < |s| && IsSpace(s[i]) && MonthNumber(s[..i]) == Some(d.month)
    ensures t == TrimStart(s[i..]) && j < |t| && t[j] == ','
    ensures |TrimStart(t[j + 1..])| < |t[j + 1..]|
    ensures MakeDate(t[..j], d.month, TrimStart(t[j + 1..])) == Some(d)
  {
    i := IndexOfSpace(s).value;
    var m := MonthNumber(s[..i]).value;
    t := TrimStart(s[i..]);
    assert ParseDayAndYear(m, t) == Some(d);
    j := IndexOf(t, ',').value;
  }

  /** The month name, the whitespace runs and the two digit fields of a text, cut at the parser's positions. */
  lemma LongFormPieces(s: string, i: nat, t: string, j: nat)
    returns (month: string, gap1: string, dayText: string, gap2: string, yearText: string)
    requires i < |s| && IsSpace(s[i])
    requires t == TrimStart(s[i..]) && j < |t| && t[j] == ','
    requires |TrimStart(t[j + 1..])| < |t[j + 1..]|
    ensures s == LongForm(month, gap1, dayText, gap2, yearText)
    ensures month == s[..i] && dayText == t[..j] && yearText == TrimStart(t[j + 1..])
    ensures gap1 != [] && AllSpace(gap1) && gap2 != [] && AllSpace(gap2)
  {
    var rest, after := s[i..], t[j + 1..];
    yearText := TrimStart(after);
    TrimStartShorter(rest);
    gap1 := LeadingSpace(rest, t);
    gap2 := LeadingSpace(after, yearText);
    month, dayText := s[..i], t[..j];
    SplitAt(s, i);
    CommaAt(t, j);
    JoinLongForm(s, month, rest, gap1, t, dayText, after, gap2, yearText);
  }

  /** `lstrip` shortens a text that starts with whitespace. */
  lemma TrimStartShorter(rest: string)
    requires rest != [] && IsSpace(rest[0])
    ensures |TrimStart(rest)| < |rest|
  {
    var t := TrimStart(rest);
    if |t| == |rest| {
      assert false;
    }
  }

  /** The whitespace `lstrip` removes, when it removes some. */
  lemma LeadingSpace(rest: string, t: string) returns (gap: string)
    requires t == TrimStart(rest) && |t| < |rest|
    ensures rest == gap + t && gap != [] && AllSpace(gap)
  {
    gap := rest[..|rest| - |t|];
    assert rest == gap + rest[|rest| - |t|..];
  }

  lemma SplitAt(s: string, i: nat)
    requires i <= |s|
    ensures s == s[..i] + s[i..]
  {
  }

  lemma CommaAt(t: string, j: nat)
    requires j < |t| && t[j] == ','
    ensures t == t[..j] + [','] + t[j + 1..]
  {
  }

  /** Putting the pieces back together. */
  lemma JoinLongForm(s: string, month: string, rest: string, gap1: string, t: string, dayText: string,
                     after: string, gap2: string, yearText: string)
    requires s == month + rest && rest == gap1 + t
    requires t == dayText + [','] + after && after == gap2 + yearText
    ensures s == LongForm(month, gap1, dayText, gap2, yearText)
  {
  }

  /** The date `MakeDate` gives from the pieces is the one they denote. */
  lemma MakeDateOfPieces(month: string, gap1: string, dayText: string, gap2: string, yearText: string, d: Date)
    requires MonthNumber(month) == Some(d.month)
    requires MakeDate(dayText, d.month, yearText) == Some(d)
    requires gap1 != [] && AllSpace(gap1) && gap2 != [] && AllSpace(gap2)
    ensures DenotesDate(month, gap1, dayText, gap2, yearText, d)
  {
  }

  /**
   * Completeness of `ParseLongDate`: every text of the long form whose pieces
   * denote a valid date is accepted, with that date, whatever the case of the
   * month name, the width of the whitespace runs or the zero padding of the day.
   */
  lemma ParseLongDateComplete(month: string, gap1: string, dayText: string, gap2: string, yearText: string, d: Date)
    requires DenotesDate(month, gap1, dayText, gap2, yearText, d)
    ensures ParseLongDate(LongForm(month, gap1, dayText, gap2, yearText)) == Some(d)
  {
    var after := gap2 + yearText;
    var tail := dayText + [','] + after;
    var s := month + (gap1 + tail);
    JoinLongForm(s, month, gap1 + tail, gap1, tail, dayText, after, gap2, yearText);
    MonthThenRun(s, month, gap1, tail, d.month);
    ParseDayGapYear(d.month, dayText, gap2, yearText, tail);
    MakeDateOfDenoted(dayText, yearText, d);
  }

  /** A month name in any case and a whitespace run: what follows is parsed as day and year. */
  lemma MonthThenRun(s: string, month: string, gap: string, t: string, m: int)
    requires s == month + (gap + t)
    requires 1 <= m <= 12 && Lower(month) == Lower(MonthNames[m - 1])
    requires gap != [] && AllSpace(gap)
    requires t != [] && !IsSpace(t[0])
    ensures ParseLongDate(s) == ParseDayAndYear(m, t)
  {
    MatchingNameHasNoSpace(month, m);
    MonthNumberOfMatch(month, m);
    SpaceRunThenField(s, month, gap, t);
    ParseLongDateAt(s, |month|, m);
  }

  /** The fields of a date are turned back into that date. */
  lemma MakeDateOfDenoted(dayText: string, yearText: string, d: Date)
    requires Valid(d) && FieldsShape(dayText, yearText)
    requires d == Date(DigitsValue(yearText), d.month, DigitsValue(dayText))
    ensures MakeDate(dayText, d.month, yearText) == Some(d)
  {
  }

  /** A text that lower-cases to a month name holds no whitespace: `LowerChar` changes letters only. */
  lemma MatchingNameHasNoSpace(text: string, m: int)
    requires 1 <= m <= 12 && Lower(text) == Lower(MonthNames[m - 1])
    ensures NoSpace(text)
  {
    var name := MonthNames[m - 1];
    MonthNameHasNoSpace(m);
    forall k | 0 <= k < |text|
      ensures !IsSpace(text[k])
    {
      assert LowerChar(text[k]) == LowerChar(name[k]);
    }
  }

  /** A text that lower-cases to the name of month `m` is recognised as month `m`. */
  lemma MonthNumberOfMatch(text: string, m: int)
    requires 1 <= m <= 12 && Lower(text) == Lower(MonthNames[m - 1])
    ensures MonthNumber(text) == Some(m)
  {
    var r := MonthNumber(text);
    assert r.Some?;
    MonthNamesDistinct(r.value - 1, m - 1);
  }

  /** A word with no whitespace, a whitespace run, then a field: the word is found and the run skipped. */
  lemma SpaceRunThenField(s: string, word: string, gap: string, t: string)
    requires s == word + (gap + t)
    requires NoSpace(word) && gap != [] && AllSpace(gap)
    requires t != [] && !IsSpace(t[0])
    ensures IndexOfSpace(s) == Some(|word|)
    ensures s[..|word|] == word
    ensures TrimStart(s[|word|..]) == t
  {
    SpaceRunFound(s, word, gap, t);
    assert s[..|word|] == word;
    assert s[|word|..] == gap + t;
    TrimStartRun(gap, t);
  }

  lemma SpaceRunFound(s: string, word: string, gap: string, t: string)
    requires s == word + (gap + t)
    requires NoSpace(word) && gap != []
    requires IsSpace(gap[0])
    ensures IndexOfSpace(s) == Some(|word|)
  {
    assert s == word + [gap[0]] + (gap[1..] + t);
    IndexOfSpaceAfter(word, gap[0], gap[1..] + t);
  }

  /** Day, comma, a whitespace run of any width and year: the fields are handed to `MakeDate`. */
  lemma ParseDayGapYear(m: int, dayText: string, gap: string, yearText: string, s: string)
    requires 1 <= m <= 12
    requires AllDigits(dayText)
    requires gap != [] && AllSpace(gap)
    requires yearText != [] && !IsSpace(yearText[0])
    requires s == dayText + [','] + (gap + yearText)
    ensures ParseDayAndYear(m, s) == MakeDate(dayText, m, yearText)
  {
    assert ',' !in dayText by {
      assert forall k :: 0 <= k < |dayText| ==> IsDigit(dayText[k]);
    }
    IndexOfAfter(dayText, ',', gap + yearText);
    assert s[..|dayText|] == dayText;
    assert s[|dayText| + 1..] == gap + yearText;
    TrimStartRun(gap, yearText);
  }

  /** Parsing the long form of a date gives back the date. */
  lemma ParseLongText(d: Date)
    requires Valid(d)
    ensures ParseLongDate(LongText(d)) == Some(d)
  {
    var name, dayText, yearText := MonthNames[d.month - 1], NatText(d.day), PadDigits(d.year, 4);
    assert LongText(d) == name + " " + (dayText + ", " + yearText);
    MakeDateOfFields(d);
    ParseLongFields(d.month, name, dayText, yearText);
  }

  /** A month name, one space, a digit field, a comma, one space and a digit field parse as those fields. */
  lemma ParseLongFields(m: int, name: string, dayText: string, yearText: string)
    requires 1 <= m <= 12 && name == MonthNames[m - 1]
    requires dayText != [] && AllDigits(dayText)
    requires yearText != [] && AllDigits(yearText)
    ensures ParseLongDate(name + " " + (dayText + ", " + yearText)) == MakeDate(dayText, m, yearText)
  {
    assert IsDigit(dayText[0]) && IsDigit(yearText[0]);
    ParseAfterMonth(name, m, dayText + ", " + yearText);
    ParseDayCommaYear(m, dayText, yearText);
  }

  /** The day and year fields the long form writes denote the date again. */
  lemma MakeDateOfFields(d: Date)
    requires Valid(d)
    ensures MakeDate(NatText(d.day), d.month, PadDigits(d.year, 4)) == Some(d)
  {
    var dayText, yearText := NatText(d.day), PadDigits(d.year, 4);
    assert Date(DigitsValue(yearText), d.month, DigitsValue(dayText)) == d;
  }

  /** The digit strings of 25 September 2021. */
  lemma SeptemberDigits()
    ensures NatText(25) == "25" && PadDigits(25, 2) == "25"
    ensures PadDigits(9, 2) == "09" && PadDigits(2021, 4) == "2021"
  {
    assert "25"[..1] == "2" && "2"[..0] == "";
    assert "09"[..1] == "0" && "0"[..0] == "";
    assert DigitsValue("25") == 25 && DigitsValue("09") == 9;
    NatTextOfText("25");
    PadDigitsOfText("25");
    PadDigitsOfText("09");
    assert "2021"[..3] == "202" && "202"[..2] == "20" && "20"[..1] == "2";
    assert DigitsValue("2021") == 2021;
    PadDigitsOfText("2021");
  }

  /** 25 September 2021 in long form. */
  lemma SeptemberLongText(d: Date)
    requires d == Date(2021, 9, 25)
    ensures Valid(d) && LongText(d) == "September 25, 2021"
  {
    assert Valid(d);
    SeptemberDigits();
    assert MonthNames[d.month - 1] == "September";
  }

  /** `"September 25, 2021"` is parsed as 25 September 2021. */
  lemma SeptemberParseExample(text: string, d: Date)
    requires text == "September 25, 2021" && d == Date(2021, 9, 25)
    ensures ParseLongDate(text) == Some(d)
  {
    SeptemberLongText(d);
    ParseLongText(d);
  }

  /** 25 September 2021 is written `2021-09-25`. */
  lemma SeptemberIsoExample(d: Date)
    requires d == Date(2021, 9, 25)
    ensures Valid(d) && IsoText(d) == "2021-09-25"
  {
    assert Valid(d);
    SeptemberDigits();
    assert IsoText(d) == PadDigits(2021, 4) + "-" + PadDigits(9, 2) + "-" + PadDigits(25, 2);
  }

  /** A lower-case month name, a zero-padded day and a wider gap after the comma are still accepted. */
  lemma LenientParseExample(text: string, d: Date)
    requires text == "september 05,  2021" && d == Date(2021, 9, 5)
    ensures ParseLongDate(text) == Some(d)
  {
    LenientPieces(d);
    assert text == LongForm("september", " ", "05", "  ", "2021");
    ParseLongDateComplete("september", " ", "05", "  ", "2021", d);
  }

  lemma LenientPieces(d: Date)
    requires d == Date(2021, 9, 5)
    ensures DenotesDate("september", " ", "05", "  ", "2021", d)
  {
    assert Valid(d);
    assert Lower("september") == Lower(MonthNames[8]) by {
      assert MonthNames[8] == "September";
    }
    assert "05"[..1] == "0" && "0"[..0] == "";
    assert "2021"[..3] == "202" && "202"[..2] == "20" && "20"[..1] == "2" && "2"[..0] == "";
    assert DigitsValue("05") == 5 && DigitsValue("2021") == 2021;
  }
}
