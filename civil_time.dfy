/** Calendar arithmetic of the proleptic Gregorian calendar in UTC, as the
    source uses it through its date library: a Unix timestamp (seconds since
    1970-01-01 00:00:00 UTC) becomes a date and a time of day, which is
    written as EXIF date text `YYYY:MM:DD HH:MM:SS`.

    Only years 0 to 9999 are modelled: those are the years whose `%Y` text is
    exactly four digits. */
module CivilTime {
  import opened Text

  /** A date and time of day without a time zone. */
  datatype NaiveDateTime = NaiveDateTime(year: nat, month: nat, day: nat, hour: nat, minute: nat, second: nat)

  const MaxYear: nat := 9999
  const SecondsPerDay: nat := 86400

  /** `format!("{}:{}:{} {}:{}:{}", ...)` of six field texts: the layout of
      EXIF date text. */
  function ExifText(year: string, month: string, day: string, hour: string, minute: string, second: string): string {
    year + ":" + month + ":" + day + " " + hour + ":" + minute + ":" + second
  }

  /** The six numeric fields of a 19-character date text, separators removed. */
  function Fields(t: string): string
    requires |t| == 19
  {
    t[0..4] + t[5..7] + t[8..10] + t[11..13] + t[14..16] + t[17..19]
  }

  /** `YYYY:MM:DD HH:MM:SS` with ASCII digits in every field. */
  predicate ExifShaped(t: string) {
    && |t| == 19
    && t[4] == ':' && t[7] == ':' && t[10] == ' ' && t[13] == ':' && t[16] == ':'
    && AllDigits(Fields(t))
  }

  lemma ExifTextShape(y: string, mo: string, d: string, h: string, mi: string, se: string)
    requires |y| == 4 && |mo| == 2 && |d| == 2 && |h| == 2 && |mi| == 2 && |se| == 2
    requires AllDigits(y + mo + d + h + mi + se)
    ensures ExifShaped(ExifText(y, mo, d, h, mi, se))
    ensures Fields(ExifText(y, mo, d, h, mi, se)) == y + mo + d + h + mi + se
  {
    var t := ExifText(y, mo, d, h, mi, se);
    assert t[0..4] == y && t[5..7] == mo && t[8..10] == d;
    assert t[11..13] == h && t[14..16] == mi && t[17..19] == se;
  }

  predicate IsLeapYear(y: nat) {
    y % 4 == 0 && (y % 100 != 0 || y % 400 == 0)
  }

  function DaysInYear(y: nat): (n: nat)
    ensures n == 365 || n == 366
  {
    if IsLeapYear(y) then 366 else 365
  }

  function DaysInMonth(y: nat, m: nat): (n: nat)
    requires 1 <= m <= 12
    ensures 28 <= n <= 31
    ensures n == 29 <==> m == 2 && IsLeapYear(y)
  {
    if m == 2 then (if IsLeapYear(y) then 29 else 28)
    else if m == 4 || m == 6 || m == 9 || m == 11 then 30
    else 31
  }

  /** A calendar date of the modelled years with a time of day; a second of
      60 (a leap second) is accepted, as the date parser accepts it. */
  predicate Valid(t: NaiveDateTime) {
    t.year <= MaxYear && 1 <= t.month <= 12 && 1 <= t.day <= DaysInMonth(t.year, t.month)
    && t.hour < 24 && t.minute < 60 && t.second <= 60
  }

  // ------------------------------------------------------------ day numbers

  /** Days from 0000-01-01 to the first day of year `y`. */
  function DaysBeforeYear(y: nat): nat {
    if y == 0 then 0 else DaysBeforeYear(y - 1) + DaysInYear(y - 1)
  }

  /** The count in closed form: 365 per year plus one per leap year before
      `y` (year 0 is a leap year). */
  lemma {:induction false} DaysBeforeYearClosedForm(y: nat)
    ensures DaysBeforeYear(y) == 365 * y + (y + 3) / 4 - (y + 99) / 100 + (y + 399) / 400
  {
    if y > 0 {
      DaysBeforeYearClosedForm(y - 1);
      LeapCountStep4(y - 1);
      LeapCountStep100(y - 1);
      LeapCountStep400(y - 1);
      CenturyDivisibility(y - 1);
    }
  }

  lemma CenturyDivisibility(y: nat)
    ensures y % 100 == 0 ==> y % 4 == 0
    ensures y % 400 == 0 ==> y % 100 == 0
  {
    if y % 100 == 0 {
      var q := y / 100;
      assert y == 4 * (25 * q);
    }
    if y % 400 == 0 {
      var q := y / 400;
      assert y == 100 * (4 * q);
    }
  }

  lemma LeapCountStep4(y: nat)
    ensures ((y + 1) + 3) / 4 == (y + 3) / 4 + (if y % 4 == 0 then 1 else 0)
  {
  }

  lemma LeapCountStep100(y: nat)
    ensures ((y + 1) + 99) / 100 == (y + 99) / 100 + (if y % 100 == 0 then 1 else 0)
  {
  }

  lemma LeapCountStep400(y: nat)
    ensures ((y + 1) + 399) / 400 == (y + 399) / 400 + (if y % 400 == 0 then 1 else 0)
  {
  }

  lemma {:induction false} DaysBeforeYearMonotone(a: nat, b: nat)
    requires a <= b
    ensures DaysBeforeYear(a) + 365 * (b - a) <= DaysBeforeYear(b)
    decreases b - a
  {
    if a < b {
      DaysBeforeYearMonotone(a, b - 1);
    }
  }

  /** Days in the months of year `y` before month `m` (1 to 13). */
  function DaysBeforeMonth(y: nat, m: nat): nat
    requires 1 <= m <= 13
  {
    [0, 31, 59, 90, 120, 151, 181, 212, 243, 273, 304, 334, 365][m - 1]
      + (if m > 2 && IsLeapYear(y) then 1 else 0)
  }

  lemma DaysBeforeMonthStep(y: nat, m: nat)
    requires 1 <= m <= 12
    ensures DaysBeforeMonth(y, m + 1) == DaysBeforeMonth(y, m) + DaysInMonth(y, m)
    ensures DaysBeforeMonth(y, 13) == DaysInYear(y)
  {
  }

  lemma DaysBeforeMonthMonotone(y: nat, a: nat, b: nat)
    requires 1 <= a <= b <= 13
    ensures DaysBeforeMonth(y, a) + 28 * (b - a) <= DaysBeforeMonth(y, b)
  {
  }

  /** Days from 0000-01-01 to the given date. */
  function DayNumber(year: nat, month: nat, day: nat): int
    requires 1 <= month <= 12
  {
    DaysBeforeYear(year) + DaysBeforeMonth(year, month) + day - 1
  }

  /** The year that holds day number `n`, searching upwards from year `y`. */
  function YearFrom(y: nat, n: int): (r: nat)
    requires DaysBeforeYear(y) <= n
    ensures y <= r && DaysBeforeYear(r) <= n < DaysBeforeYear(r + 1)
    decreases n - DaysBeforeYear(y)
  {
    if n < DaysBeforeYear(y + 1) then y else YearFrom(y + 1, n)
  }

  /** The month of year `y` that holds day `r` of the year (counted from 0),
      searching upwards from month `m`. */
  function MonthFrom(y: nat, m: nat, r: nat): (res: nat)
    requires 1 <= m <= 12 && DaysBeforeMonth(y, m) <= r < DaysInYear(y)
    ensures m <= res <= 12 && DaysBeforeMonth(y, res) <= r < DaysBeforeMonth(y, res + 1)
    decreases 12 - m
  {
    DaysBeforeMonthStep(y, m);
    if r < DaysBeforeMonth(y, m + 1) then m else MonthFrom(y, m + 1, r)
  }

  /** The date of day number `n` (days from 0000-01-01), as (year, month, day). */
  function CivilFromDayNumber(n: nat): (r: (nat, nat, nat))
    ensures 1 <= r.1 <= 12 && 1 <= r.2 <= DaysInMonth(r.0, r.1)
  {
    var y := YearFrom(0, n);
    DaysBeforeMonthStep(y, 1);
    var m := MonthFrom(y, 1, n - DaysBeforeYear(y));
    DaysBeforeMonthStep(y, m);
    (y, m, n - DaysBeforeYear(y) - DaysBeforeMonth(y, m) + 1)
  }

  lemma DayNumberOfCivil(n: nat)
    ensures var r := CivilFromDayNumber(n); DayNumber(r.0, r.1, r.2) == n
  {
  }

  lemma YearUnique(y: nat, z: nat, n: int)
    requires DaysBeforeYear(y) <= n < DaysBeforeYear(y + 1)
    requires DaysBeforeYear(z) <= n < DaysBeforeYear(z + 1)
    ensures y == z
  {
    if y < z {
      DaysBeforeYearMonotone(y + 1, z);
    } else if z < y {
      DaysBeforeYearMonotone(z + 1, y);
    }
  }

  lemma MonthUnique(y: nat, m: nat, k: nat, r: int)
    requires 1 <= m <= 12 && 1 <= k <= 12
    requires DaysBeforeMonth(y, m) <= r < DaysBeforeMonth(y, m + 1)
    requires DaysBeforeMonth(y, k) <= r < DaysBeforeMonth(y, k + 1)
    ensures m == k
  {
    if m < k {
      DaysBeforeMonthMonotone(y, m + 1, k);
    } else if k < m {
      DaysBeforeMonthMonotone(y, k + 1, m);
    }
  }

  /** Day numbers and dates are in one-to-one correspondence. */
  lemma CivilOfDayNumber(year: nat, month: nat, day: nat)
    requires 1 <= month <= 12 && 1 <= day <= DaysInMonth(year, month)
    ensures DayNumber(year, month, day) >= 0
    ensures CivilFromDayNumber(DayNumber(year, month, day)) == (year, month, day)
  {
    var n := DayNumber(year, month, day);
    DaysBeforeYearMonotone(0, year);
    DaysBeforeMonthStep(year, month);
    DaysBeforeMonthMonotone(year, month + 1, 13);
    var y := YearFrom(0, n);
    YearUnique(year, y, n);
    var k := n - DaysBeforeYear(year);
    assert DaysBeforeMonth(year, month) <= k < DaysBeforeMonth(year, month + 1);
    DaysBeforeMonthStep(year, 1);
    var m := MonthFrom(year, 1, k);
    MonthUnique(year, month, m, k);
  }

  // ----------------------------------------------------------- timestamps

  /** Day number of 1970-01-01, the Unix epoch. */
  const UnixEpochDay: nat := 719528

  lemma UnixEpochDayIs1970()
    ensures DaysBeforeYear(1970) == UnixEpochDay
  {
    DaysBeforeYearClosedForm(1970);
  }

  /** Day number of 10000-01-01, the first day after the modelled years. */
  const EndDay: nat := 3652425

  lemma EndDayIs10000()
    ensures DaysBeforeYear(MaxYear + 1) == EndDay
  {
    DaysBeforeYearClosedForm(MaxYear + 1);
  }

  /** The first and one past the last timestamp of the modelled years
      (0000-01-01 00:00:00 and 10000-01-01 00:00:00). */
  const FirstTimestamp: int := -(UnixEpochDay as int) * SecondsPerDay
  const EndTimestamp: int := (EndDay - UnixEpochDay) * SecondsPerDay

  /** `DateTime::<Utc>::from_timestamp(ts, 0)`: the UTC date and time of a
      Unix timestamp, None outside years 0 to 9999. Days are counted with
      floor division, so a negative timestamp falls on an earlier day. */
  function FromTimestamp(ts: int): (r: Option<NaiveDateTime>)
    ensures r.Some? <==> FirstTimestamp <= ts < EndTimestamp
    ensures r.Some? ==> Valid(r.value) && r.value.second < 60
  {
    var n := ts / SecondsPerDay + UnixEpochDay;
    var secs := ts % SecondsPerDay;
    if 0 <= n < EndDay then
      var d := CivilFromDayNumber(n);
      YearBound(n);
      Some(NaiveDateTime(d.0, d.1, d.2, secs / 3600, secs % 3600 / 60, secs % 60))
    else None
  }

  lemma YearBound(n: nat)
    requires n < EndDay
    ensures CivilFromDayNumber(n).0 <= MaxYear
  {
    var y := CivilFromDayNumber(n).0;
    EndDayIs10000();
    if y > MaxYear {
      DaysBeforeYearMonotone(MaxYear + 1, y);
    }
  }

  /** Seconds since the epoch of a date and time. */
  function Timestamp(t: NaiveDateTime): int
    requires 1 <= t.month <= 12
  {
    (DayNumber(t.year, t.month, t.day) - UnixEpochDay) * SecondsPerDay + t.hour * 3600 + t.minute * 60 + t.second
  }

  lemma TimestampOfFromTimestamp(ts: int)
    requires FromTimestamp(ts).Some?
    ensures Timestamp(FromTimestamp(ts).value) == ts
  {
    var n := ts / SecondsPerDay + UnixEpochDay;
    var secs := ts % SecondsPerDay;
    DayNumberOfCivil(n);
    JoinClock(secs);
    JoinDays(ts);
    var t := FromTimestamp(ts).value;
    assert t.hour * 3600 + t.minute * 60 + t.second == secs;
    assert DayNumber(t.year, t.month, t.day) == n;
  }

  lemma JoinClock(secs: nat)
    ensures secs / 3600 * 3600 + secs % 3600 / 60 * 60 + secs % 60 == secs
  {
  }

  lemma JoinDays(ts: int)
    ensures (ts / SecondsPerDay) * SecondsPerDay + ts % SecondsPerDay == ts
  {
  }

  lemma FromTimestampOfTimestamp(t: NaiveDateTime)
    requires Valid(t) && t.second < 60
    ensures FromTimestamp(Timestamp(t)) == Some(t)
  {
    var n := DayNumber(t.year, t.month, t.day);
    CivilOfDayNumber(t.year, t.month, t.day);
    DayNumberInRange(t);
    var secs := t.hour * 3600 + t.minute * 60 + t.second;
    SplitClock(t.hour, t.minute, t.second);
    SplitSeconds(n - UnixEpochDay, secs);
    var ts := Timestamp(t);
    assert ts == (n - UnixEpochDay) * SecondsPerDay + secs;
    assert ts / SecondsPerDay + UnixEpochDay == n;
    assert ts % SecondsPerDay == secs;
  }

  lemma DayNumberInRange(t: NaiveDateTime)
    requires Valid(t)
    ensures 0 <= DayNumber(t.year, t.month, t.day) < EndDay
  {
    DaysBeforeYearMonotone(t.year + 1, MaxYear + 1);
    DaysBeforeMonthStep(t.year, t.month);
    DaysBeforeMonthMonotone(t.year, t.month + 1, 13);
    EndDayIs10000();
  }

  lemma SplitSeconds(days: int, secs: nat)
    requires secs < SecondsPerDay
    ensures (days * SecondsPerDay + secs) / SecondsPerDay == days
    ensures (days * SecondsPerDay + secs) % SecondsPerDay == secs
  {
  }

  lemma SplitClock(h: nat, mi: nat, s: nat)
    requires h < 24 && mi < 60 && s < 60
    ensures var secs := h * 3600 + mi * 60 + s;
      secs < SecondsPerDay && secs / 3600 == h && secs % 3600 / 60 == mi && secs % 60 == s
  {
  }

  // ------------------------------------------------------------- EXIF text

  /** `format("%Y:%m:%d %H:%M:%S")` of a date and time. */
  function ExifString(t: NaiveDateTime): (r: string)
    requires Valid(t)
    ensures |r| == 19
  {
    ExifText(Four(t.year), Two(t.month), Two(t.day), Two(t.hour), Two(t.minute), Two(t.second))
  }

  /** The EXIF date text of a Unix timestamp (`from_timestamp`, then
      `format("%Y:%m:%d %H:%M:%S")`), None outside years 0 to 9999. */
  function ExifFromTimestamp(ts: int): (r: Option<string>)
    ensures r.Some? <==> FirstTimestamp <= ts < EndTimestamp
    ensures r.Some? ==> |r.value| == 19
  {
    match FromTimestamp(ts)
    case Some(t) => Some(ExifString(t))
    case None => None
  }
}
