/** Proleptic Gregorian dates as `datetime` handles them (years 1 to 9999):
    `strptime(s, "%Y-%m-%d")`, adding one day, `strftime("%d-%b-%Y")`, and
    the SINCE/BEFORE search keys of section 6.4.4 of RFC 3501, whose dates
    are compared by calendar day only. */
module Calendar {
  import opened Common
  import opened Text

  datatype Date = Date(year: int, month: int, day: int)

  const MinYear := 1
  const MaxYear := 9999

  predicate IsLeapYear(y: int) {
    y % 4 == 0 && (y % 100 != 0 || y % 400 == 0)
  }

  function DaysInMonth(y: int, m: int): (n: int)
    requires 1 <= m <= 12
    ensures 28 <= n <= 31
    ensures n == 29 <==> m == 2 && IsLeapYear(y)
  {
    if m == 2 then (if IsLeapYear(y) then 29 else 28)
    else if m == 4 || m == 6 || m == 9 || m == 11 then 30
    else 31
  }

  /** A date `datetime.date` accepts. */
  predicate Valid(d: Date) {
    MinYear <= d.year <= MaxYear && 1 <= d.month <= 12 && 1 <= d.day <= DaysInMonth(d.year, d.month)
  }

  /** `a` is an earlier calendar day than `b`. */
  predicate Before(a: Date, b: Date) {
    a.year < b.year
    || (a.year == b.year && a.month < b.month)
    || (a.year == b.year && a.month == b.month && a.day < b.day)
  }

  // ---------------------------------------------------------------------------
  // Day numbers: the proleptic Gregorian ordinal, 0001-01-01 being day 1

  function YearLength(y: int): int {
    if IsLeapYear(y) then 366 else 365
  }

  function DaysBeforeYear(y: int): nat
    decreases y
  {
    if y <= MinYear then 0 else DaysBeforeYear(y - 1) + YearLength(y - 1)
  }

  function DaysBeforeMonth(y: int, m: int): nat
    requires 1 <= m <= 12
    decreases m
  {
    if m == 1 then 0 else DaysBeforeMonth(y, m - 1) + DaysInMonth(y, m - 1)
  }

  /** `date.toordinal()`. */
  function Ordinal(d: Date): int
    requires Valid(d)
  {
    DaysBeforeYear(d.year) + DaysBeforeMonth(d.year, d.month) + d.day
  }

  lemma {:induction false} DaysBeforeMonthGrows(y: int, m: int, n: int)
    requires 1 <= m <= n <= 12
    ensures DaysBeforeMonth(y, m) + (if m < n then DaysInMonth(y, m) else 0) <= DaysBeforeMonth(y, n)
    decreases n - m
  {
    if m < n {
      assert DaysBeforeMonth(y, m + 1) == DaysBeforeMonth(y, m) + DaysInMonth(y, m);
      if m + 1 < n {
        DaysBeforeMonthGrows(y, m + 1, n);
      }
    }
  }

  lemma {:induction false} DaysBeforeYearGrows(y: int, z: int)
    requires MinYear <= y < z
    ensures DaysBeforeYear(y) + YearLength(y) <= DaysBeforeYear(z)
    decreases z - y
  {
    if y + 1 < z {
      DaysBeforeYearGrows(y + 1, z);
    }
  }

  /** The days of the months of a year add up to the year's length. */
  lemma MonthsFillYear(y: int)
    ensures DaysBeforeMonth(y, 12) + 31 == YearLength(y)
  {
  }

  /** Calendar order is ordinal order. */
  lemma BeforeIsOrdinalOrder(a: Date, b: Date)
    requires Valid(a) && Valid(b)
    ensures Before(a, b) <==> Ordinal(a) < Ordinal(b)
    ensures a == b <==> Ordinal(a) == Ordinal(b)
  {
    if a.year < b.year {
      DaysBeforeMonthGrows(a.year, a.month, 12);
      MonthsFillYear(a.year);
      DaysBeforeYearGrows(a.year, b.year);
    } else if b.year < a.year {
      DaysBeforeMonthGrows(b.year, b.month, 12);
      MonthsFillYear(b.year);
      DaysBeforeYearGrows(b.year, a.year);
    } else if a.month < b.month {
      DaysBeforeMonthGrows(a.year, a.month, b.month);
    } else if b.month < a.month {
      DaysBeforeMonthGrows(b.year, b.month, a.month);
    }
  }

  // ---------------------------------------------------------------------------
  // date + timedelta(days=1)

  /** The next calendar day; `None` where `datetime` raises OverflowError
      (after 9999-12-31). */
  function NextDay(d: Date): (r: Option<Date>)
    requires Valid(d)
    ensures r.None? <==> d == Date(MaxYear, 12, 31)
    ensures r.Some? ==> Valid(r.value)
  {
    if d.day < DaysInMonth(d.year, d.month) then Some(Date(d.year, d.month, d.day + 1))
    else if d.month < 12 then Some(Date(d.year, d.month + 1, 1))
    else if d.year < MaxYear then Some(Date(d.year + 1, 1, 1))
    else None
  }

  /** The next day is one ordinal further. */
  lemma NextDayOrdinal(d: Date)
    requires Valid(d) && NextDay(d).Some?
    ensures Ordinal(NextDay(d).value) == Ordinal(d) + 1
  {
    if d.day < DaysInMonth(d.year, d.month) {
    } else if d.month < 12 {
      assert DaysBeforeMonth(d.year, d.month + 1) == DaysBeforeMonth(d.year, d.month) + d.day;
    } else {
      MonthsFillYear(d.year);
      assert DaysBeforeYear(d.year + 1) == DaysBeforeYear(d.year) + YearLength(d.year);
    }
  }

  /** Nothing lies strictly between a day and the next one: a day is before
      the next day of `d` exactly when it is not after `d`. */
  lemma NextDayIsSuccessor(d: Date, m: Date)
    requires Valid(d) && Valid(m) && NextDay(d).Some?
    ensures Before(m, NextDay(d).value) <==> !Before(d, m)
  {
    NextDayOrdinal(d);
    BeforeIsOrdinalOrder(m, NextDay(d).value);
    BeforeIsOrdinalOrder(d, m);
  }

  // ---------------------------------------------------------------------------
  // strptime(s, "%Y-%m-%d")

  /** `%m`, the regex `1[0-2]|0[1-9]|[1-9]`: the first alternative that
      matches at `i` gives the value and where it ends. No later backtracking
      can pick another one: the separator `-` that follows rules the
      shorter alternative out whenever a longer one matched. */
  function MonthField(s: string, i: nat): (r: Option<(int, nat)>)
    ensures r.Some? ==> 1 <= r.value.0 <= 12 && i < r.value.1 <= |s|
  {
    if i + 1 < |s| && s[i] == '1' && '0' <= s[i + 1] <= '2' then Some((10 + DigitValue(s[i + 1]), i + 2))
    else if i + 1 < |s| && s[i] == '0' && '1' <= s[i + 1] <= '9' then Some((DigitValue(s[i + 1]), i + 2))
    else if i < |s| && '1' <= s[i] <= '9' then Some((DigitValue(s[i]), i + 1))
    else None
  }

  /** `%d`, the regex `3[01]|[12]\d|0[1-9]|[1-9]| [1-9]`, which ends the
      format: the first alternative that matches wins, even when a longer
      one would have consumed the whole string. */
  function DayField(s: string, i: nat): (r: Option<(int, nat)>)
    ensures r.Some? ==> 1 <= r.value.0 <= 31 && i < r.value.1 <= |s|
  {
    if i + 1 < |s| && s[i] == '3' && '0' <= s[i + 1] <= '1' then Some((30 + DigitValue(s[i + 1]), i + 2))
    else if i + 1 < |s| && '1' <= s[i] <= '2' && IsDigit(s[i + 1]) then Some((DigitValue(s[i]) * 10 + DigitValue(s[i + 1]), i + 2))
    else if i + 1 < |s| && s[i] == '0' && '1' <= s[i + 1] <= '9' then Some((DigitValue(s[i + 1]), i + 2))
    else if i < |s| && '1' <= s[i] <= '9' then Some((DigitValue(s[i]), i + 1))
    else if i + 1 < |s| && s[i] == ' ' && '1' <= s[i + 1] <= '9' then Some((DigitValue(s[i + 1]), i + 2))
    else None
  }

  function NoMatchError(s: string): Failure {
    ValueError("time data '" + s + "' does not match format '%Y-%m-%d'")
  }

  /** `datetime.strptime(s, "%Y-%m-%d")`: the format regex must match at the
      start, the match must reach the end of `s`, and the fields must name
      an existing day. */
  function ParseIsoDate(s: string): (r: Result<Date>)
    ensures r.Ok? ==> Valid(r.value)
    ensures r.Ok? ==> 8 <= |s| <= 10 && AllDigits(s[..4]) && s[4] == '-'
    ensures r.Ok? ==> r.value.year == DigitsValue(s[..4])
    ensures r.Ok? ==> MonthField(s, 5).Some? && MonthField(s, 5).value.0 == r.value.month
    ensures r.Ok? ==> var j := MonthField(s, 5).value.1;
              j < |s| && s[j] == '-' && DayField(s, j + 1) == Some((r.value.day, |s|))
  {
    if |s| < 5 || !AllDigits(s[..4]) || s[4] != '-' then Err(NoMatchError(s))
    else match MonthField(s, 5)
      case None => Err(NoMatchError(s))
      case Some((m, j)) =>
        if j == |s| || s[j] != '-' then Err(NoMatchError(s))
        else match DayField(s, j + 1)
          case None => Err(NoMatchError(s))
          case Some((d, k)) =>
            if k < |s| then Err(ValueError("unconverted data remains: " + s[k..]))
            else
              var y := DigitsValue(s[..4]);
              FourDigitsBound(s[..4]);
              if y < MinYear then Err(ValueError("year 0 is out of range"))
              else if d > DaysInMonth(y, m) then Err(ValueError("day is out of range for month"))
              else Ok(Date(y, m, d))
  }

  /** The converse: four digits, `-`, a month field, `-` and a day field
      that ends the text, naming an existing day, are parsed as that day. */
  lemma ParseIsoDateOk(s: string, m: int, j: nat, d: int)
    requires 5 <= |s| && AllDigits(s[..4]) && s[4] == '-'
    requires MonthField(s, 5) == Some((m, j)) && j < |s| && s[j] == '-'
    requires DayField(s, j + 1) == Some((d, |s|))
    requires Valid(Date(DigitsValue(s[..4]), m, d))
    ensures ParseIsoDate(s) == Ok(Date(DigitsValue(s[..4]), m, d))
  {
  }

  lemma FourDigitsBound(s: string)
    requires |s| == 4 && AllDigits(s)
    ensures DigitsValue(s) < 10000
  {
    assert s[..3][..2][..1][..0] == [];
    assert DigitsValue(s[..3][..2][..1]) < 10;
    assert DigitsValue(s[..3][..2]) < 100;
    assert DigitsValue(s[..3]) < 1000;
  }

  // ---------------------------------------------------------------------------
  // Rendering

  /** Two decimal digits, zero-padded (`%d`, `%m`). */
  function Pad2(n: nat): (r: string)
    requires n < 100
    ensures |r| == 2 && AllDigits(r)
    ensures DigitValue(r[0]) * 10 + DigitValue(r[1]) == n
  {
    [DigitChar(n / 10), DigitChar(n % 10)]
  }

  /** Four decimal digits, zero-padded (`%Y` of `date.isoformat()`). */
  function Pad4(n: nat): (r: string)
    requires n < 10000
    ensures |r| == 4 && AllDigits(r)
  {
    [DigitChar(n / 1000), DigitChar(n / 100 % 10), DigitChar(n / 10 % 10), DigitChar(n % 10)]
  }

  lemma Pad4Value(n: nat)
    requires n < 10000
    ensures DigitsValue(Pad4(n)) == n
  {
    var r := Pad4(n);
    FourDigitsValue(r);
    assert DigitValue(r[0]) == n / 1000 && DigitValue(r[1]) == n / 100 % 10;
    assert DigitValue(r[2]) == n / 10 % 10 && DigitValue(r[3]) == n % 10;
    DecimalSplit(n);
  }

  /** The value of four digits, most significant first. */
  lemma FourDigitsValue(r: string)
    requires |r| == 4 && AllDigits(r)
    ensures DigitsValue(r)
         == ((DigitValue(r[0]) * 10 + DigitValue(r[1])) * 10 + DigitValue(r[2])) * 10 + DigitValue(r[3])
  {
    var r3 := r[..3];
    var r2 := r3[..2];
    var r1 := r2[..1];
    assert r1[..0] == [] && r1[0] == r[0];
    assert DigitsValue(r1) == DigitValue(r[0]);
    assert r2[..1] == r1 && r2[1] == r[1];
    assert DigitsValue(r2) == DigitsValue(r1) * 10 + DigitValue(r[1]);
    assert r3[..2] == r2 && r3[2] == r[2];
    assert DigitsValue(r3) == DigitsValue(r2) * 10 + DigitValue(r[2]);
    assert DigitsValue(r) == DigitsValue(r3) * 10 + DigitValue(r[3]);
  }

  /** Peeling off the decimal digits of `n` one at a time. */
  lemma DecimalSplit(n: nat)
    ensures n / 1000 * 10 + n / 100 % 10 == n / 100
    ensures n / 100 * 10 + n / 10 % 10 == n / 10
    ensures n / 10 * 10 + n % 10 == n
  {
  }

  /** `date.isoformat()`: `YYYY-MM-DD`. */
  function IsoText(d: Date): (r: string)
    requires Valid(d)
    ensures |r| == 10
  {
    Pad4(d.year) + "-" + Pad2(d.month) + "-" + Pad2(d.day)
  }

  /** The canonical form of a valid day is read back as that day. */
  lemma IsoRoundTrip(d: Date)
    requires Valid(d)
    ensures ParseIsoDate(IsoText(d)) == Ok(d)
  {
    var s := IsoText(d);
    IsoPieces(d);
    Pad4Value(d.year);
    MonthFieldOfPad(s, d.month);
    DayFieldOfPad(s, d.day);
  }

  /** Where the fields of `YYYY-MM-DD` sit. */
  lemma IsoPieces(d: Date)
    requires Valid(d)
    ensures IsoText(d)[..4] == Pad4(d.year) && IsoText(d)[4] == '-' && IsoText(d)[7] == '-'
    ensures IsoText(d)[5] == Pad2(d.month)[0] && IsoText(d)[6] == Pad2(d.month)[1]
    ensures IsoText(d)[8] == Pad2(d.day)[0] && IsoText(d)[9] == Pad2(d.day)[1]
  {
  }

  /** `%m` reads a zero-padded month back. */
  lemma MonthFieldOfPad(s: string, m: int)
    requires 1 <= m <= 12 && 7 < |s|
    requires s[5] == Pad2(m)[0] && s[6] == Pad2(m)[1] && s[7] == '-'
    ensures MonthField(s, 5) == Some((m, 7))
  {
  }

  /** `%d` reads a zero-padded day back at the end of the text. */
  lemma DayFieldOfPad(s: string, d: int)
    requires 1 <= d <= 31 && |s| == 10
    requires s[8] == Pad2(d)[0] && s[9] == Pad2(d)[1]
    ensures DayField(s, 8) == Some((d, 10))
  {
  }

  const MonthAbbrevs: seq<string> :=
    ["Jan", "Feb", "Mar", "Apr", "May", "Jun", "Jul", "Aug", "Sep", "Oct", "Nov", "Dec"]

  /** `%b` in the C locale. */
  function MonthAbbrev(m: int): (r: string)
    requires 1 <= m <= 12
    ensures |r| == 3
  {
    MonthAbbrevs[m - 1]
  }

  /** `strftime("%d-%b-%Y")`. `%Y` is the C library's, which does not pad
      years below 1000. */
  function ImapDateText(d: Date): (r: string)
    requires Valid(d)
  {
    Pad2(d.day) + "-" + MonthAbbrev(d.month) + "-" + NatToString(d.year)
  }

  /** The month whose abbreviation is `name`, if any. */
  function MonthFromAbbrev(name: string): (r: Option<int>)
    ensures r.Some? ==> 1 <= r.value <= 12 && MonthAbbrev(r.value) == name
    ensures r.None? ==> forall m :: 1 <= m <= 12 ==> MonthAbbrev(m) != name
  {
    if name == "Jan" then Some(1) else if name == "Feb" then Some(2)
    else if name == "Mar" then Some(3) else if name == "Apr" then Some(4)
    else if name == "May" then Some(5) else if name == "Jun" then Some(6)
    else if name == "Jul" then Some(7) else if name == "Aug" then Some(8)
    else if name == "Sep" then Some(9) else if name == "Oct" then Some(10)
    else if name == "Nov" then Some(11) else if name == "Dec" then Some(12)
    else None
  }

  /** The day a `DD-Mon-YYYY` text names, read as the date-text of
      section 9 of RFC 3501 with a two-digit day. */
  function ReadImapDate(s: string): Option<Date> {
    if |s| < 8 || !IsDigit(s[0]) || !IsDigit(s[1]) || s[2] != '-' || s[6] != '-' || !AllDigits(s[7..]) then None
    else match MonthFromAbbrev(s[3..6])
      case None => None
      case Some(m) =>
        var d := Date(DigitsValue(s[7..]), m, DigitValue(s[0]) * 10 + DigitValue(s[1]));
        if Valid(d) then Some(d) else None
  }

  /** The search key text names the day it was made from. */
  lemma ImapDateRoundTrip(d: Date)
    requires Valid(d)
    ensures ReadImapDate(ImapDateText(d)) == Some(d)
  {
    var s := ImapDateText(d);
    var dd := Pad2(d.day);
    var y := NatToString(d.year);
    assert s[0] == dd[0] && s[1] == dd[1] && s[2] == '-' && s[6] == '-';
    assert s[3..6] == MonthAbbrev(d.month);
    assert s[7..] == y;
    DecimalRoundTrip(d.year);
  }

  // ---------------------------------------------------------------------------
  // The search of agent_email_fetch.py

  /** The SEARCH criteria `(SINCE "sd" BEFORE "ed")`. */
  function SearchCriteria(since: string, before: string): string {
    "(SINCE \"" + since + "\" BEFORE \"" + before + "\")"
  }

  /** The two bounds the search uses: the start day and the day after the
      end day. */
  datatype SearchWindow = SearchWindow(since: Date, before: Date, criteria: string)

  /** Lines 48-53: the end date is read first and moved one day on, then the
      start date is read; the first failure is the one raised. */
  function SearchWindowOf(startDate: string, endDate: string): (r: Result<SearchWindow>)
    ensures r.Ok? ==> Valid(r.value.since) && Valid(r.value.before)
    ensures r.Ok? ==> ParseIsoDate(startDate) == Ok(r.value.since)
    ensures r.Ok? ==> ParseIsoDate(endDate).Ok?
                      && NextDay(ParseIsoDate(endDate).value) == Some(r.value.before)
    ensures r.Ok? ==> r.value.criteria == SearchCriteria(ImapDateText(r.value.since), ImapDateText(r.value.before))
    ensures r.Err? ==> ParseIsoDate(endDate).Err? || ParseIsoDate(startDate).Err?
                       || ParseIsoDate(endDate) == Ok(Date(MaxYear, 12, 31))
  {
    match ParseIsoDate(endDate)
    case Err(e) => Err(e)
    case Ok(end) =>
      match NextDay(end)
      case None => Err(OverflowError("date value out of range"))
      case Some(bound) =>
        match ParseIsoDate(startDate)
        case Err(e) => Err(e)
        case Ok(start) => Ok(SearchWindow(start, bound, SearchCriteria(ImapDateText(start), ImapDateText(bound))))
  }

  /** A message day matches `SINCE s BEFORE b` when it is not before `s`
      and is before `b` (section 6.4.4 of RFC 3501). */
  predicate InWindow(w: SearchWindow, m: Date) {
    !Before(m, w.since) && Before(m, w.before)
  }

  /** The range is inclusive at both ends: a message matches exactly when
      its day lies from the start date to the end date, both included. */
  lemma WindowIsInclusive(startDate: string, endDate: string, m: Date)
    requires Valid(m)
    requires SearchWindowOf(startDate, endDate).Ok?
    ensures var w := SearchWindowOf(startDate, endDate).value;
      InWindow(w, m) <==> !Before(m, w.since) && !Before(ParseIsoDate(endDate).value, m)
  {
    var end := ParseIsoDate(endDate).value;
    NextDayIsSuccessor(end, m);
  }
}
