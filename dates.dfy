/**
 * Date: a calendar date (or null) entered as "dd-MM-yyyy" text.
 *
 * A LocalDate is its three fields; comparison is Java's field-by-field
 * difference. Parsing a string that matches the digit pattern reads the
 * three numbers and resolves them as the formatter's default SMART
 * resolver does: out-of-range fields are refused, a day past the end of
 * its month becomes the month's last day.
 */
module Dates {
  import opened Wrappers
  import opened Numbers

  /** Character.isWhitespace: the Unicode space, line and paragraph separators except the no-break ones, and the ASCII controls \t..\r and \u001C..\u001F. */
  predicate IsJavaWhitespace(c: char) {
    ('\t' <= c <= '\r') || ('\U{001C}' <= c <= '\U{001F}') || c == ' '
    || c == '\U{1680}' || ('\U{2000}' <= c <= '\U{2006}') || ('\U{2008}' <= c <= '\U{200A}')
    || c == '\U{2028}' || c == '\U{2029}' || c == '\U{205F}' || c == '\U{3000}'
  }

  /** String.isBlank: empty or white space only. */
  predicate IsBlank(s: string) {
    forall i :: 0 <= i < |s| ==> IsJavaWhitespace(s[i])
  }

  predicate DigitsAt(s: string, from: nat, to: nat)
    requires from <= to <= |s|
  {
    forall i :: from <= i < to ==> IsDigit(s[i])
  }

  /** The value of the digits s[from..to]. */
  function FieldValue(s: string, from: nat, to: nat): (v: nat)
    requires from <= to <= |s| && DigitsAt(s, from, to)
    ensures v < Pow10(to - from)
  {
    assert AllDigits(s[from..to]);
    DigitsValueBound(s[from..to]);
    DigitsValue(s[from..to])
  }

  /** The whole of s matches \d{2}-\d{2}-\d{4} . */
  predicate MatchesDatePattern(s: string) {
    |s| == 10 && DigitsAt(s, 0, 2) && s[2] == '-' && DigitsAt(s, 3, 5) && s[5] == '-' && DigitsAt(s, 6, 10)
  }

  /** A string of `width` zero characters. */
  function Zeros(width: nat): (s: string)
    ensures |s| == width && AllDigits(s)
  {
    if width == 0 then [] else Zeros(width - 1) + "0"
  }

  /** n in decimal, left-padded with zeros to at least `width` digits. */
  function ZeroPad(n: nat, width: nat): (s: string)
    ensures AllDigits(s) && |s| >= width && |s| >= 1
  {
    var digits := NatDigits(n);
    if |digits| >= width then digits else Zeros(width - |digits|) + digits
  }

  lemma {:induction false} DigitsValueLeadingZero(s: string)
    requires AllDigits(s)
    ensures DigitsValue("0" + s) == DigitsValue(s)
    decreases |s|
  {
    if s != [] {
      var t := "0" + s;
      assert t[..|t| - 1] == "0" + s[..|s| - 1];
      DigitsValueLeadingZero(s[..|s| - 1]);
    }
  }

  lemma {:induction false} DigitsValueZeros(width: nat, s: string)
    requires AllDigits(s)
    ensures AllDigits(Zeros(width) + s)
    ensures DigitsValue(Zeros(width) + s) == DigitsValue(s)
    decreases width
  {
    if width == 0 {
      assert Zeros(width) + s == s;
    } else {
      var t := "0" + s;
      assert AllDigits(t) by {
        assert forall i :: 0 < i < |t| ==> t[i] == s[i - 1];
      }
      assert Zeros(width) + s == Zeros(width - 1) + t;
      DigitsValueZeros(width - 1, t);
      DigitsValueLeadingZero(s);
    }
  }

  lemma ZeroPadValue(n: nat, width: nat)
    ensures DigitsValue(ZeroPad(n, width)) == n
  {
    var digits := NatDigits(n);
    DigitsValueOfNatDigits(n);
    if |digits| >= width {
      assert ZeroPad(n, width) == digits;
    } else {
      assert ZeroPad(n, width) == Zeros(width - |digits|) + digits;
      DigitsValueZeros(width - |digits|, digits);
    }
  }

  lemma ZeroPadLength(n: nat, width: nat)
    requires width >= 1 && n < Pow10(width)
    ensures |ZeroPad(n, width)| == width
  {
    NatDigitsLength(n, width);
  }

  lemma {:induction false} NatDigitsLength(n: nat, width: nat)
    requires width >= 1 && n < Pow10(width)
    ensures |NatDigits(n)| <= width
    decreases n
  {
    if n >= 10 {
      assert width >= 2;
      assert n / 10 < Pow10(width - 1);
      NatDigitsLength(n / 10, width - 1);
    }
  }

  lemma {:induction false} NatDigitsLengthAtLeast(n: nat, k: nat)
    requires n >= Pow10(k)
    ensures |NatDigits(n)| >= k + 1
    decreases k
  {
    if k > 0 {
      assert n / 10 >= Pow10(k - 1);
      NatDigitsLengthAtLeast(n / 10, k - 1);
    }
  }

  /** A LocalDate; year, month and day as its fields. */
  datatype LocalDate = LocalDate(year: int, month: int, day: int)

  /** The range every LocalDate's month and day lie in. */
  predicate IsCalendarShaped(d: LocalDate) {
    1 <= d.month <= 12 && 1 <= d.day <= 31
  }

  /** Year.isLeap: the proleptic Gregorian rule. */
  predicate IsLeap(year: int) {
    year % 4 == 0 && (year % 100 != 0 || year % 400 == 0)
  }

  function MonthLength(year: int, month: int): (n: int)
    requires 1 <= month <= 12
    ensures 28 <= n <= 31
    ensures month == 2 ==> (n == 29 <==> IsLeap(year))
  {
    if month == 2 then (if IsLeap(year) then 29 else 28)
    else if month == 4 || month == 6 || month == 9 || month == 11 then 30
    else 31
  }

  /** A day that exists in the proleptic Gregorian calendar. */
  predicate IsCalendarDate(d: LocalDate) {
    1 <= d.month <= 12 && 1 <= d.day <= MonthLength(d.year, d.month)
  }

  /** The chronological order, as a reference: year, then month, then day. */
  predicate Earlier(a: LocalDate, b: LocalDate) {
    a.year < b.year || (a.year == b.year && (a.month < b.month || (a.month == b.month && a.day < b.day)))
  }

  /** LocalDate.compareTo: the first non-zero difference of year, month and day. */
  function CompareLocalDates(a: LocalDate, b: LocalDate): (r: int)
    ensures r < 0 <==> Earlier(a, b)
    ensures r > 0 <==> Earlier(b, a)
    ensures r == 0 <==> a == b
  {
    if a.year != b.year then a.year - b.year
    else if a.month != b.month then a.month - b.month
    else a.day - b.day
  }

  /** The text of the year under the pattern letters "yyyy": year of era, at least four digits, '+' once it exceeds four. */
  function YearText(year: int): (s: string)
    ensures |s| >= 4
    ensures 1 <= year <= 9999 ==> |s| == 4 && AllDigits(s) && DigitsValue(s) == year
  {
    var yearOfEra: nat := if year >= 1 then year else 1 - year;
    ZeroPadValue(yearOfEra, 4);
    assert Pow10(4) == 10000;
    if yearOfEra > 9999 then
      NatDigitsLengthAtLeast(yearOfEra, 4);
      "+" + NatDigits(yearOfEra)
    else
      ZeroPadLength(yearOfEra, 4);
      ZeroPad(yearOfEra, 4)
  }

  function TwoDigits(n: int): (s: string)
    requires 0 <= n < 100
    ensures |s| == 2 && AllDigits(s) && DigitsValue(s) == n
  {
    ZeroPadValue(n, 2);
    assert Pow10(2) == 100;
    ZeroPadLength(n, 2);
    ZeroPad(n, 2)
  }

  /** The "dd-MM-yyyy" rendering of a date. */
  function FormatDate(d: LocalDate): (s: string)
    requires IsCalendarShaped(d)
    ensures |s| >= 10
    ensures 1 <= d.year <= 9999 ==> MatchesDatePattern(s)
  {
    TwoDigits(d.day) + "-" + TwoDigits(d.month) + "-" + YearText(d.year)
  }

  /**
   * The SMART resolution of day-of-month, month-of-year and year-of-era
   * (no era given, so the current one): each field outside its range is a
   * parse error, and a day beyond the month's length is moved back to the
   * month's last day.
   */
  function ResolveDate(day: int, month: int, yearOfEra: int, text: string): (r: Result<LocalDate>)
    ensures r.Success? <==> 1 <= day <= 31 && 1 <= month <= 12 && yearOfEra >= 1
    ensures r.Failure? ==> r.error == DateTimeParse(text)
    ensures r.Success? ==> IsCalendarDate(r.value) && r.value.year == yearOfEra && r.value.month == month
    ensures r.Success? ==> r.value.day <= day && (r.value.day == day <==> day <= MonthLength(yearOfEra, month))
  {
    if !(1 <= day <= 31 && 1 <= month <= 12 && yearOfEra >= 1) then Failure(DateTimeParse(text))
    else
      var last := MonthLength(yearOfEra, month);
      Success(LocalDate(yearOfEra, month, if day <= last then day else last))
  }

  /** LocalDate.parse with "dd-MM-yyyy" on a string of the validated shape. */
  function ParseDate(s: string): (r: Result<LocalDate>)
    requires MatchesDatePattern(s)
    ensures r.Success? ==> IsCalendarDate(r.value) && 1 <= r.value.year <= 9999
    ensures r.Failure? ==> r.error == DateTimeParse(s)
  {
    assert Pow10(2) == 100 && Pow10(4) == 10000;
    ResolveDate(FieldValue(s, 0, 2), FieldValue(s, 3, 5), FieldValue(s, 6, 10), s)
  }

  lemma FieldValueAt(a: string, b: string, from: nat)
    requires AllDigits(b) && from + |b| <= |a| && a[from..from + |b|] == b
    ensures DigitsAt(a, from, from + |b|) && FieldValue(a, from, from + |b|) == DigitsValue(b)
  {
    forall i | from <= i < from + |b|
      ensures IsDigit(a[i])
    {
      assert a[i] == b[i - from];
    }
  }

  /** Every calendar date with a four-digit year survives rendering and parsing. */
  lemma ParseFormatDate(d: LocalDate)
    requires IsCalendarDate(d) && 1 <= d.year <= 9999
    ensures ParseDate(FormatDate(d)) == Success(d)
  {
    var s := FormatDate(d);
    var dd, mm, yyyy := TwoDigits(d.day), TwoDigits(d.month), YearText(d.year);
    assert s == dd + "-" + mm + "-" + yyyy;
    assert s[0..2] == dd;
    assert s[3..5] == mm;
    assert s[6..10] == yyyy;
    FieldValueAt(s, dd, 0);
    FieldValueAt(s, mm, 3);
    FieldValueAt(s, yyyy, 6);
  }

  const DATE_NULL := "Registration date cannot be null"
  const DATE_FORMAT := "Registration date must be in the format DD-MM-YYYY"

  /** validateDate: null is refused, blank text is accepted, anything else must match the pattern. */
  function ValidateDate(s: Option<string>): (r: Outcome)
    ensures r.Pass? <==> s.Some? && (IsBlank(s.value) || MatchesDatePattern(s.value))
    ensures s.None? ==> r == Fail(IllegalArgument(DATE_NULL))
    ensures s.Some? && r.Fail? ==> r == Fail(IllegalArgument(DATE_FORMAT))
  {
    if s.None? then Fail(IllegalArgument(DATE_NULL))
    else if IsBlank(s.value) then Pass
    else if !MatchesDatePattern(s.value) then Fail(IllegalArgument(DATE_FORMAT))
    else Pass
  }

  /** The value of Date: a LocalDate, or None for the persistence constructor's null. */
  datatype Date = Date(date: Option<LocalDate>) {

    /** A null date orders before every date; otherwise chronological. */
    function CompareTo(o: Date): (r: int)
      ensures date.None? && o.date.None? ==> r == 0
      ensures date.None? && o.date.Some? ==> r < 0
      ensures date.Some? && o.date.None? ==> r > 0
      ensures date.Some? && o.date.Some? ==>
                (r < 0 <==> Earlier(date.value, o.date.value)) && (r == 0 <==> this == o)
    {
      if date.None? && o.date.None? then 0
      else if date.None? then -1
      else if o.date.None? then 1
      else CompareLocalDates(date.value, o.date.value)
    }

    /** A null date is after nothing; any date is after a null one. */
    function IsAfter(o: Date): (r: bool)
      ensures date.None? ==> !r
      ensures date.Some? && o.date.None? ==> r
      ensures date.Some? && o.date.Some? ==> (r <==> Earlier(o.date.value, date.value))
    {
      if date.None? && o.date.None? then false
      else if date.None? then false
      else if o.date.None? then true
      else CompareLocalDates(date.value, o.date.value) > 0
    }

    /** Two nulls are not before each other; a null date is before any date. */
    function IsBefore(o: Date): (r: bool)
      ensures date.None? && o.date.None? ==> !r
      ensures date.None? && o.date.Some? ==> r
      ensures o.date.None? ==> !r || date.None?
      ensures date.Some? && o.date.Some? ==> (r <==> Earlier(date.value, o.date.value))
    {
      if date.None? && o.date.None? then false
      else if date.None? then true
      else if o.date.None? then false
      else CompareLocalDates(date.value, o.date.value) < 0
    }

    /** toString: "dd-MM-yyyy"; a null date raises NullPointerException. */
    function ToString(): (r: Result<string>)
      requires date.Some? ==> IsCalendarShaped(date.value)
      ensures date.None? <==> r == Failure(NullPointer)
      ensures date.Some? && 1 <= date.value.year <= 9999 ==> r.Success? && MatchesDatePattern(r.value)
    {
      if date.None? then Failure(NullPointer) else Success(FormatDate(date.value))
    }
  }

  /** new Date(String): validation, then today's date for blank text, else the digits read as dd-MM-yyyy. */
  function DateFromString(s: Option<string>, today: LocalDate): (r: Result<Date>)
    ensures ValidateDate(s).Fail? ==> r == Failure(ValidateDate(s).error)
    ensures s.Some? && IsBlank(s.value) ==> r == Success(Date(Some(today)))
    ensures ValidateDate(s).Pass? && !IsBlank(s.value) ==>
              (r.Success? <==> ParseDate(s.value).Success?)
              && (r.Failure? ==> r.error == DateTimeParse(s.value))
              && (r.Success? ==> r.value.date == Some(ParseDate(s.value).value))
    ensures r.Success? ==> r.value.date.Some?
  {
    match ValidateDate(s)
    case Fail(e) => Failure(e)
    case Pass =>
      if IsBlank(s.value) then Success(Date(Some(today)))
      else
        match ParseDate(s.value)
        case Failure(e) => Failure(e)
        case Success(d) => Success(Date(Some(d)))
  }

  /** What SMART resolution does with a few borderline day, month and year fields. */
  lemma SmartResolution(text: string)
    ensures ResolveDate(31, 2, 2021, text) == Success(LocalDate(2021, 2, 28))
    ensures ResolveDate(31, 2, 2024, text) == Success(LocalDate(2024, 2, 29))
    ensures ResolveDate(31, 4, 2024, text) == Success(LocalDate(2024, 4, 30))
    ensures ResolveDate(32, 1, 2024, text).Failure? && ResolveDate(0, 1, 2024, text).Failure?
    ensures ResolveDate(1, 13, 2024, text).Failure? && ResolveDate(1, 1, 0, text).Failure?
  {
  }

  /** new Date(LocalDate): null is refused. */
  function DateFromLocalDate(d: Option<LocalDate>): (r: Result<Date>)
    ensures d.None? <==> r == Failure(IllegalArgument(DATE_NULL))
    ensures d.Some? ==> r == Success(Date(d))
  {
    if d.None? then Failure(IllegalArgument(DATE_NULL)) else Success(Date(d))
  }

  /** The persistence constructor: a null date. */
  function EmptyDate(): (d: Date)
    ensures d.date.None?
  {
    Date(None)
  }

  /** A rendered date is read back as the same date. */
  lemma DateTextRoundTrip(d: LocalDate, today: LocalDate)
    requires IsCalendarDate(d) && 1 <= d.year <= 9999
    ensures Date(Some(d)).ToString().Success?
    ensures DateFromString(Some(Date(Some(d)).ToString().value), today) == Success(Date(Some(d)))
  {
    ParseFormatDate(d);
    var s := FormatDate(d);
    assert s[2] == '-';
    assert !IsJavaWhitespace(s[2]);
  }

  /** isAfter and isBefore agree with the sign of compareTo, null cases included, and exclude each other. */
  lemma AfterBeforeMatchCompare(a: Date, b: Date)
    ensures a.IsAfter(b) <==> a.CompareTo(b) > 0
    ensures a.IsBefore(b) <==> a.CompareTo(b) < 0
    ensures !(a.IsAfter(b) && a.IsBefore(b))
    ensures a.IsAfter(b) <==> b.IsBefore(a)
  {
  }

  /** compareTo is antisymmetric and transitive. */
  lemma CompareLocalDatesAntisymmetric(a: LocalDate, b: LocalDate)
    ensures CompareLocalDates(a, b) == -CompareLocalDates(b, a)
  {
  }

  lemma CompareToIsOrder(a: Date, b: Date, c: Date)
    ensures a.CompareTo(b) == -b.CompareTo(a)
    ensures a.CompareTo(b) < 0 && b.CompareTo(c) < 0 ==> a.CompareTo(c) < 0
  {
  }
}

/**
 * DateTime: a date and time of day (or null) entered as "dd-MM-yyyy:HH:mm:ss"
 * text, with the same validation and null-aware comparisons as Date.
 */
module DateTimes {
  import opened Wrappers
  import opened Numbers
  import opened Dates

  /** A LocalDateTime: the date and the time-of-day fields. */
  datatype LocalDateTime = LocalDateTime(date: LocalDate, hour: int, minute: int, second: int, nano: int)

  predicate IsClockShaped(t: LocalDateTime) {
    IsCalendarShaped(t.date) && 0 <= t.hour < 24 && 0 <= t.minute < 60 && 0 <= t.second < 60
  }

  /** The chronological order as a reference: date, then hour, minute, second, nanosecond. */
  predicate EarlierTime(a: LocalDateTime, b: LocalDateTime) {
    Earlier(a.date, b.date)
    || (a.date == b.date &&
        (a.hour < b.hour || (a.hour == b.hour &&
        (a.minute < b.minute || (a.minute == b.minute &&
        (a.second < b.second || (a.second == b.second && a.nano < b.nano)))))))
  }

  /** Integer.compare. */
  function IntCompare(x: int, y: int): (r: int)
    ensures -1 <= r <= 1 && (r < 0 <==> x < y) && (r == 0 <==> x == y)
  {
    if x < y then -1 else if x == y then 0 else 1
  }

  /** LocalDateTime.compareTo: the date difference, then Integer.compare on each time field. */
  function CompareLocalDateTimes(a: LocalDateTime, b: LocalDateTime): (r: int)
    ensures r < 0 <==> EarlierTime(a, b)
    ensures r > 0 <==> EarlierTime(b, a)
    ensures r == 0 <==> a == b
  {
    var d := CompareLocalDates(a.date, b.date);
    if d != 0 then d
    else if a.hour != b.hour then IntCompare(a.hour, b.hour)
    else if a.minute != b.minute then IntCompare(a.minute, b.minute)
    else if a.second != b.second then IntCompare(a.second, b.second)
    else IntCompare(a.nano, b.nano)
  }

  /** The whole of s matches \d{2}-\d{2}-\d{4}:\d{2}:\d{2}:\d{2} . */
  predicate MatchesDateTimePattern(s: string) {
    |s| == 19 && MatchesDatePattern(s[..10]) && s[10] == ':' && DigitsAt(s, 11, 13)
    && s[13] == ':' && DigitsAt(s, 14, 16) && s[16] == ':' && DigitsAt(s, 17, 19)
  }

  const DATE_TIME_FORMAT := "Registration date must be in the format DD-MM-YYYY:HH:mm:ss"
  const DATE_TIME_NULL := "Date cannot be null"

  /** validateDate: null is refused, blank text is accepted, anything else must match the pattern. */
  function ValidateDateTime(s: Option<string>): (r: Outcome)
    ensures r.Pass? <==> s.Some? && (IsBlank(s.value) || MatchesDateTimePattern(s.value))
    ensures s.None? ==> r == Fail(IllegalArgument(DATE_NULL))
    ensures s.Some? && r.Fail? ==> r == Fail(IllegalArgument(DATE_TIME_FORMAT))
  {
    if s.None? then Fail(IllegalArgument(DATE_NULL))
    else if IsBlank(s.value) then Pass
    else if !MatchesDateTimePattern(s.value) then Fail(IllegalArgument(DATE_TIME_FORMAT))
    else Pass
  }

  /** The day after a calendar date. */
  function NextDay(d: LocalDate): (r: LocalDate)
    requires IsCalendarDate(d)
    ensures IsCalendarDate(r) && Earlier(d, r)
    ensures forall e :: Earlier(d, e) && IsCalendarDate(e) ==> e == r || Earlier(r, e)
  {
    if d.day < MonthLength(d.year, d.month) then d.(day := d.day + 1)
    else if d.month < 12 then LocalDate(d.year, d.month + 1, 1)
    else LocalDate(d.year + 1, 1, 1)
  }

  /**
   * The SMART resolution of the time fields on a resolved date: minute and
   * second must be in range; 24:00:00 is the start of the next day; any
   * other hour must be below 24.
   */
  function ResolveDateTime(date: Result<LocalDate>, hour: int, minute: int, second: int, text: string): (r: Result<LocalDateTime>)
    requires date.Success? ==> IsCalendarDate(date.value)
    ensures r.Success? <==> date.Success? && 0 <= minute < 60 && 0 <= second < 60
                            && (0 <= hour < 24 || (hour == 24 && minute == 0 && second == 0))
    ensures r.Failure? ==> r.error == DateTimeParse(text)
    ensures r.Success? ==> IsClockShaped(r.value) && IsCalendarDate(r.value.date) && r.value.nano == 0
    ensures r.Success? && hour < 24 ==> r.value == LocalDateTime(date.value, hour, minute, second, 0)
    ensures r.Success? && hour == 24 ==> r.value == LocalDateTime(NextDay(date.value), 0, 0, 0, 0)
  {
    if date.Failure? || !(0 <= minute < 60) || !(0 <= second < 60) then Failure(DateTimeParse(text))
    else if hour == 24 && minute == 0 && second == 0 then Success(LocalDateTime(NextDay(date.value), 0, 0, 0, 0))
    else if 0 <= hour < 24 then Success(LocalDateTime(date.value, hour, minute, second, 0))
    else Failure(DateTimeParse(text))
  }

  /** LocalDateTime.parse with "dd-MM-yyyy:HH:mm:ss" on a string of the validated shape. */
  function ParseDateTime(s: string): (r: Result<LocalDateTime>)
    requires MatchesDateTimePattern(s)
    ensures r.Success? ==> IsClockShaped(r.value) && IsCalendarDate(r.value.date) && r.value.nano == 0
    ensures r.Failure? ==> r.error == DateTimeParse(s)
  {
    ResolveDateTime(ParseDate(s[..10]), FieldValue(s, 11, 13), FieldValue(s, 14, 16), FieldValue(s, 17, 19), s)
  }

  /** 24:00:00 on the last day of a year is midnight of the next year's first day; 24:00:01 and minute 60 are refused. */
  lemma EndOfDayRollsOver(text: string)
    ensures ResolveDateTime(Success(LocalDate(2020, 12, 31)), 24, 0, 0, text) == Success(LocalDateTime(LocalDate(2021, 1, 1), 0, 0, 0, 0))
    ensures ResolveDateTime(Success(LocalDate(2020, 1, 1)), 24, 0, 1, text).Failure?
    ensures ResolveDateTime(Success(LocalDate(2020, 1, 1)), 23, 60, 0, text).Failure?
  {
  }

  /** The "dd-MM-yyyy:HH:mm:ss" rendering. */
  function FormatDateTime(t: LocalDateTime): (s: string)
    requires IsClockShaped(t)
    ensures |s| >= 19 && s[..|s| - 9] == FormatDate(t.date)
  {
    FormatDate(t.date) + ":" + TwoDigits(t.hour) + ":" + TwoDigits(t.minute) + ":" + TwoDigits(t.second)
  }

  /** Where the fields of a "dd-MM-yyyy:HH:mm:ss" text built from its parts lie. */
  lemma SplitDateTimeText(date: string, hh: string, mi: string, ss: string)
    requires |date| == 10 && |hh| == 2 && |mi| == 2 && |ss| == 2
    ensures var s := date + ":" + hh + ":" + mi + ":" + ss;
            |s| == 19 && s[..10] == date && s[10] == ':' && s[11..13] == hh && s[13] == ':'
            && s[14..16] == mi && s[16] == ':' && s[17..19] == ss
  {
    var s := date + ":" + hh + ":" + mi + ":" + ss;
    assert s[..10] == date;
    assert s[11..13] == hh;
    assert s[14..16] == mi;
    assert s[17..19] == ss;
  }

  /** With a four-digit year the rendering matches the validation pattern and reads back as t. */
  lemma FormatDateTimeParses(t: LocalDateTime)
    requires IsClockShaped(t) && IsCalendarDate(t.date) && 1 <= t.date.year <= 9999
    ensures MatchesDateTimePattern(FormatDateTime(t))
    ensures t.nano == 0 ==> ParseDateTime(FormatDateTime(t)) == Success(t)
  {
    var s := FormatDateTime(t);
    var hh, mi, ss := TwoDigits(t.hour), TwoDigits(t.minute), TwoDigits(t.second);
    SplitDateTimeText(FormatDate(t.date), hh, mi, ss);
    FieldValueAt(s, hh, 11);
    FieldValueAt(s, mi, 14);
    FieldValueAt(s, ss, 17);
    ParseFormatDate(t.date);
  }

  /** The value of DateTime: a LocalDateTime, or None for the persistence constructor's null. */
  datatype DateTime = DateTime(date: Option<LocalDateTime>) {

    function GetDate(): Option<LocalDateTime> {
      date
    }

    function CompareTo(o: DateTime): (r: int)
      ensures date.None? && o.date.None? ==> r == 0
      ensures date.None? && o.date.Some? ==> r < 0
      ensures date.Some? && o.date.None? ==> r > 0
      ensures date.Some? && o.date.Some? ==>
                (r < 0 <==> EarlierTime(date.value, o.date.value)) && (r == 0 <==> this == o)
    {
      if date.None? && o.date.None? then 0
      else if date.None? then -1
      else if o.date.None? then 1
      else CompareLocalDateTimes(date.value, o.date.value)
    }

    function IsAfter(o: DateTime): (r: bool)
      ensures date.None? ==> !r
      ensures date.Some? && o.date.None? ==> r
      ensures date.Some? && o.date.Some? ==> (r <==> EarlierTime(o.date.value, date.value))
    {
      if date.None? && o.date.None? then false
      else if date.None? then false
      else if o.date.None? then true
      else CompareLocalDateTimes(date.value, o.date.value) > 0
    }

    function IsBefore(o: DateTime): (r: bool)
      ensures date.None? && o.date.None? ==> !r
      ensures date.None? && o.date.Some? ==> r
      ensures o.date.None? ==> !r || date.None?
      ensures date.Some? && o.date.Some? ==> (r <==> EarlierTime(date.value, o.date.value))
    {
      if date.None? && o.date.None? then false
      else if date.None? then true
      else if o.date.None? then false
      else CompareLocalDateTimes(date.value, o.date.value) < 0
    }

    /** toString: "dd-MM-yyyy:HH:mm:ss"; a null value raises NullPointerException. */
    function ToString(): (r: Result<string>)
      requires date.Some? ==> IsClockShaped(date.value)
      ensures date.None? <==> r == Failure(NullPointer)
      ensures date.Some? ==> r.Success? && |r.value| >= 19 && r.value[..|r.value| - 9] == FormatDate(date.value.date)
    {
      if date.None? then Failure(NullPointer) else Success(FormatDateTime(date.value))
    }
  }

  /** new DateTime(String): validation, then the current moment for blank text, else the digits read as dd-MM-yyyy:HH:mm:ss. */
  function DateTimeFromString(s: Option<string>, now: LocalDateTime): (r: Result<DateTime>)
    ensures ValidateDateTime(s).Fail? ==> r == Failure(ValidateDateTime(s).error)
    ensures s.Some? && IsBlank(s.value) ==> r == Success(DateTime(Some(now)))
    ensures ValidateDateTime(s).Pass? && !IsBlank(s.value) ==>
              (r.Success? <==> ParseDateTime(s.value).Success?)
              && (r.Failure? ==> r.error == DateTimeParse(s.value))
              && (r.Success? ==> r.value.date == Some(ParseDateTime(s.value).value))
    ensures r.Success? ==> r.value.date.Some?
  {
    match ValidateDateTime(s)
    case Fail(e) => Failure(e)
    case Pass =>
      if IsBlank(s.value) then Success(DateTime(Some(now)))
      else
        match ParseDateTime(s.value)
        case Failure(e) => Failure(e)
        case Success(t) => Success(DateTime(Some(t)))
  }

  /** new DateTime(LocalDateTime): null is refused. */
  function DateTimeFromLocal(t: Option<LocalDateTime>): (r: Result<DateTime>)
    ensures t.None? <==> r == Failure(IllegalArgument(DATE_TIME_NULL))
    ensures t.Some? ==> r == Success(DateTime(t)) && r.value.GetDate() == t
  {
    if t.None? then Failure(IllegalArgument(DATE_TIME_NULL)) else Success(DateTime(t))
  }

  function EmptyDateTime(): (d: DateTime)
    ensures d.GetDate().None?
  {
    DateTime(None)
  }

  /** A rendered date-time with whole seconds is read back as the same value. */
  lemma DateTimeTextRoundTrip(t: LocalDateTime, now: LocalDateTime)
    requires IsClockShaped(t) && IsCalendarDate(t.date) && t.nano == 0 && 1 <= t.date.year <= 9999
    ensures DateTime(Some(t)).ToString().Success?
    ensures DateTimeFromString(Some(DateTime(Some(t)).ToString().value), now) == Success(DateTime(Some(t)))
  {
    FormatDateTimeParses(t);
    var s := FormatDateTime(t);
    assert s[2] == '-';
    assert !IsJavaWhitespace(s[2]);
  }

  lemma AfterBeforeMatchCompare(a: DateTime, b: DateTime)
    ensures a.IsAfter(b) <==> a.CompareTo(b) > 0
    ensures a.IsBefore(b) <==> a.CompareTo(b) < 0
    ensures !(a.IsAfter(b) && a.IsBefore(b))
    ensures a.IsAfter(b) <==> b.IsBefore(a)
  {
  }
}
