/** Day and date conversions (time.rs): closed forms over truncating division,
    against a calendar that just adds up years and months. */
module CivilTime {

  datatype Date = Date(y: int, m: int, d: int)

  // ---------------------------------------------------------------- the plain calendar

  predicate IsLeap(y: int) { y % 4 == 0 && (y % 100 != 0 || y % 400 == 0) }

  function YearLength(y: int): int { if IsLeap(y) then 366 else 365 }

  function MonthLength(y: int, m: int): int {
    if m == 2 then (if IsLeap(y) then 29 else 28)
    else if m in {4, 6, 9, 11} then 30 else 31
  }

  predicate IsValid(date: Date) {
    1 <= date.m <= 12 && 1 <= date.d <= MonthLength(date.y, date.m)
  }

  /** The day number of January 1st: whole years added up from 1970 on, or taken off
      before it. */
  function YearStart(y: int): int
    decreases if y < 1970 then 1970 - y else y - 1970
  {
    if y == 1970 then 0
    else if y > 1970 then YearStart(y - 1) + YearLength(y - 1)
    else YearStart(y + 1) - YearLength(y)
  }

  /** Days of the year before month `m`. */
  function MonthStart(y: int, m: int): int
    requires 1 <= m <= 12
  {
    if m == 1 then 0 else MonthStart(y, m - 1) + MonthLength(y, m - 1)
  }

  /** Days since 1970-01-01, by summing year and month lengths. */
  function DayNumber(date: Date): int
    requires 1 <= date.m <= 12
  {
    YearStart(date.y) + MonthStart(date.y, date.m) + date.d - 1
  }

  predicate Earlier(a: Date, b: Date) {
    a.y < b.y || (a.y == b.y && (a.m < b.m || (a.m == b.m && a.d < b.d)))
  }

  // ---------------------------------------------------------------- the closed forms

  /** Division as the program does it: towards zero. */
  function Div(a: int, b: int): int
    requires b > 0
  {
    if a >= 0 then a / b else -((-a) / b)
  }

  function DaysFromCivil(date: Date): int
    requires 0 <= date.m
  {
    var y := if date.m <= 2 then date.y - 1 else date.y;
    var era := Div(if y >= 0 then y else y - 399, 400);
    var yoe := y - era * 400;
    var mp := (date.m + 9) % 12;
    var doy := Div(153 * mp + 2, 5) + date.d - 1;
    var doe := yoe * 365 + Div(yoe, 4) - Div(yoe, 100) + doy;
    era * 146097 + doe - 719468
  }

  function YearOfEra(doe: int): int {
    Div(doe - Div(doe, 1460) + Div(doe, 36524) - Div(doe, 146096), 365)
  }

  function CivilFromDays(days: int): Date {
    var z := days + 719468;
    var era := Div(if z >= 0 then z else z - 146096, 146097);
    var doe := z - era * 146097;
    var yoe := YearOfEra(doe);
    var y := yoe + era * 400;
    FromMarchDay(y, doe - (365 * yoe + Div(yoe, 4) - Div(yoe, 100)))
  }

  /** Day `doy` of the year that begins on March 1st of `y`. */
  function FromMarchDay(y: int, doy: int): Date {
    var mp := Div(5 * doy + 2, 153);
    var d := doy - Div(153 * mp + 2, 5) + 1;
    var m := if mp < 10 then mp + 3 else mp - 9;
    Date(if m <= 2 then y + 1 else y, m, d)
  }

  // ---------------------------------------------------------------- floor division

  lemma EraIsFloor(a: int, n: int)
    requires n > 0
    ensures Div(if a >= 0 then a else a - (n - 1), n) == a / n
  {
    if a < 0 {
      var q, r := a / n, a % n;
      assert a == q * n + r;
      assert -(a - (n - 1)) == -q * n + (n - 1 - r);
      Unique(-(a - (n - 1)), n, -q, n - 1 - r);
    }
  }

  lemma Unique(a: int, n: int, q: int, r: int)
    requires n > 0 && 0 <= r < n && a == q * n + r
    ensures a / n == q && a % n == r
  {
    Multiples(q, a / n, n);
  }

  lemma Multiples(q: int, d: int, n: int)
    requires n > 0
    ensures q > d ==> q * n >= d * n + n
    ensures q < d ==> d * n >= q * n + n
  {
    if q > d {
      Product(q - d, d, n);
    } else if q < d {
      Product(d - q, q, n);
    }
  }

  lemma Product(k: int, d: int, n: int)
    requires k >= 1 && n > 0
    ensures (d + k) * n == d * n + k * n && k * n >= n
  {
  }

  /** Days from March 1st of year 0 to March 1st of year `y`. */
  function MarchStart(y: int): int { 365 * y + y / 4 - y / 100 + y / 400 }

  lemma EraDays(y: int)
    ensures var yoe := y - y / 400 * 400;
            0 <= yoe < 400 && y / 400 * 146097 + yoe * 365 + yoe / 4 - yoe / 100 == MarchStart(y)
  {
    var era, yoe := y / 400, y % 400;
    assert y == era * 400 + yoe;
    Unique(y, 4, era * 100 + yoe / 4, yoe % 4);
    Unique(y, 100, era * 4 + yoe / 100, yoe % 100);
  }

  function MarchMonth(mp: int): int { (153 * mp + 2) / 5 }

  /** `DaysFromCivil` in floor divisions. */
  lemma DaysForm(date: Date)
    requires 1 <= date.m <= 12
    ensures date.m <= 2 ==>
              DaysFromCivil(date) == MarchStart(date.y - 1) + MarchMonth(date.m + 9) + date.d - 1 - 719468
    ensures date.m > 2 ==>
              DaysFromCivil(date) == MarchStart(date.y) + MarchMonth(date.m - 3) + date.d - 1 - 719468
  {
    var y := if date.m <= 2 then date.y - 1 else date.y;
    EraIsFloor(y, 400);
    EraDays(y);
    if date.m <= 2 {
      Unique(date.m + 9, 12, 0, date.m + 9);
    } else {
      Unique(date.m + 9, 12, 1, date.m - 3);
    }
  }

  // ---------------------------------------------------------------- days from a date

  lemma LeapStep(y: int)
    ensures MarchStart(y) - MarchStart(y - 1) == YearLength(y)
  {
    Step(y, 4);
    Step(y, 100);
    Step(y, 400);
    if y % 400 == 0 {
      Unique(y, 100, y / 400 * 4, 0);
    }
    if y % 100 == 0 {
      Unique(y, 4, y / 100 * 25, 0);
    }
  }

  lemma Step(y: int, n: int)
    requires n > 1
    ensures y / n - (y - 1) / n == if y % n == 0 then 1 else 0
  {
    if y % n == 0 {
      Unique(y - 1, n, y / n - 1, n - 1);
    } else {
      Unique(y - 1, n, y / n, y % n - 1);
    }
  }

  lemma {:induction false} YearStartForm(y: int)
    ensures YearStart(y) == MarchStart(y - 1) + 306 - 719468
    decreases if y < 1970 then 1970 - y else y - 1970
  {
    if y > 1970 {
      YearStartForm(y - 1);
      LeapStep(y - 1);
    } else if y < 1970 {
      YearStartForm(y + 1);
      LeapStep(y);
    }
  }

  lemma MonthStartForm(y: int, m: int)
    requires 1 <= m <= 12
    ensures m <= 2 ==> MonthStart(y, m) == MarchMonth(m + 9) - 306
    ensures m > 2 ==> MonthStart(y, m) == MarchMonth(m - 3) + YearLength(y) - 306
  {
    hide IsLeap;
    var leap := IsLeap(y);
    assert MonthStart(y, 1) == 0 && MonthStart(y, 2) == 31;
    assert MonthStart(y, 3) == 31 + MonthLength(y, 2);
    assert MonthStart(y, 4) == MonthStart(y, 3) + 31;
    assert MonthStart(y, 5) == MonthStart(y, 4) + 30;
    assert MonthStart(y, 6) == MonthStart(y, 5) + 31;
    assert MonthStart(y, 7) == MonthStart(y, 6) + 30;
    assert MonthStart(y, 8) == MonthStart(y, 7) + 31;
    assert MonthStart(y, 9) == MonthStart(y, 8) + 31;
    assert MonthStart(y, 10) == MonthStart(y, 9) + 30;
    assert MonthStart(y, 11) == MonthStart(y, 10) + 31;
    assert MonthStart(y, 12) == MonthStart(y, 11) + 30;
  }

  /** The closed form counts the days of the Gregorian calendar, before and after
      1970 alike. */
  lemma DaysFromCivilCounts(date: Date)
    requires 1 <= date.m <= 12
    ensures DaysFromCivil(date) == DayNumber(date)
  {
    hide MarchStart; hide MarchMonth; hide YearLength; hide DaysFromCivil; hide YearStart; hide MonthStart;
    DaysForm(date);
    YearStartForm(date.y);
    MonthStartForm(date.y, date.m);
    if date.m > 2 {
      LeapStep(date.y);
    }
  }

  // ---------------------------------------------------------------- a date from days

  /** A day of the 400-year era, taken apart: century `b`, four-year block `q`, year
      `t` of the block and day `doy` of that March-based year. */
  predicate EraParts(doe: int, b: int, q: int, t: int, doy: int) {
    && 0 <= b <= 3 && 0 <= q <= 24 && 0 <= t <= 3 && 0 <= doy <= 365
    && doe == 36524 * b + 1461 * q + 365 * t + doy
    && (doy == 365 ==> t == 3 && q < 24)
  }

  /** Every day of the era but its last falls into exactly such parts. */
  lemma EraPartsOf(doe: int) returns (b: int, q: int, t: int, doy: int)
    requires 0 <= doe < 146096
    ensures EraParts(doe, b, q, t, doy)
  {
    b := doe / 36524;
    var r := doe % 36524;
    q := r / 1461;
    var s := r % 1461;
    t := if s == 1460 then 3 else s / 365;
    doy := s - 365 * t;
  }

  /** The program's year-of-era formula finds the year of those parts. */
  lemma YearOfEraOfParts(doe: int, b: int, q: int, t: int, doy: int)
    requires 0 <= doe < 146096 && EraParts(doe, b, q, t, doy)
    ensures YearOfEra(doe) == 100 * b + 4 * q + t
    ensures Div(YearOfEra(doe), 4) == 25 * b + q && Div(YearOfEra(doe), 100) == b
  {
    var s := 365 * t + doy;
    var carry := if 24 * b + q + s >= 1460 then 1 else 0;
    Unique(doe, 36524, b, 1461 * q + s);
    Unique(doe, 1460, 25 * b + q + carry, 24 * b + q + s - 1460 * carry);
    Unique(doe, 146096, 0, doe);
    var n := doe - doe / 1460 + doe / 36524 - doe / 146096;
    assert n == 365 * (100 * b + 4 * q) + s - carry;
    Unique(n, 365, 100 * b + 4 * q + t, doy - carry);
    Unique(YearOfEra(doe), 4, 25 * b + q, t);
    Unique(YearOfEra(doe), 100, b, 4 * q + t);
  }

  /** The day's place within its March-based year. Only leap years have a 366th day. */
  lemma DayOfYear(doe: int, era: int)
    requires 0 <= doe < 146097
    ensures var yoe := YearOfEra(doe);
            var doy := doe - (365 * yoe + Div(yoe, 4) - Div(yoe, 100));
            0 <= yoe < 400 && 0 <= doy <= 365 && (doy == 365 ==> IsLeap(yoe + era * 400 + 1))
  {
    if doe < 146096 {
      var b, q, t, doy := EraPartsOf(doe);
      YearOfEraOfParts(doe, b, q, t, doy);
      if doy == 365 {
        var y := YearOfEra(doe) + era * 400 + 1;
        Unique(y, 4, 25 * b + q + 1 + 100 * era, 0);
        Unique(y, 100, b + 4 * era, 4 * q + 4);
      }
    } else {
      var y := 399 + era * 400 + 1;
      Unique(y, 400, era + 1, 0);
      Unique(y, 4, 100 * era + 100, 0);
    }
  }

  /** The month formula, on every day of a March-based year. */
  lemma MonthOfYear(doy: int)
    requires 0 <= doy <= 365
    ensures var mp := Div(5 * doy + 2, 153);
            0 <= mp <= 11 && MarchMonth(mp) <= doy && (mp < 11 ==> doy < MarchMonth(mp + 1))
  {
    var mp := Div(5 * doy + 2, 153);
    var rest := (5 * doy + 2) % 153;
    assert 5 * doy + 2 == 153 * mp + rest;
  }

  /** Month and day of a March-based year: a valid date, `doy` days in. */
  lemma MarchDayIsRight(y: int, doy: int)
    requires 0 <= doy <= 365 && (doy == 365 ==> IsLeap(y + 1))
    ensures IsValid(FromMarchDay(y, doy))
    ensures DaysFromCivil(FromMarchDay(y, doy)) == MarchStart(y) + doy - 719468
  {
    hide IsLeap; hide DaysFromCivil; hide MarchStart;
    MonthOfYear(doy);
    DaysForm(FromMarchDay(y, doy));
  }

  /** Every day number, negative ones too, gives a valid date, and that date's day
      number is the one it came from. */
  lemma CivilFromDaysIsRight(days: int)
    ensures IsValid(CivilFromDays(days))
    ensures DaysFromCivil(CivilFromDays(days)) == days
  {
    hide YearOfEra; hide IsLeap; hide IsValid; hide MarchStart; hide DaysFromCivil; hide FromMarchDay;
    var z := days + 719468;
    var era, doe := z / 146097, z % 146097;
    EraIsFloor(z, 146097);
    assert z == era * 146097 + doe;
    DayOfYear(doe, era);
    var yoe := YearOfEra(doe);
    var y := yoe + era * 400;
    Unique(y, 400, era, yoe);
    EraDays(y);
    MarchDayIsRight(y, doe - (365 * yoe + yoe / 4 - yoe / 100));
  }

  // ---------------------------------------------------------------- order and inverse

  lemma {:induction false} YearStartsGrow(a: int, b: int)
    requires a < b
    ensures YearStart(a) + YearLength(a) <= YearStart(b)
    decreases b - a
  {
    hide YearStart; hide YearLength;
    NextYear(b - 1);
    if a < b - 1 {
      YearStartsGrow(a, b - 1);
    }
  }

  lemma NextYear(y: int)
    ensures YearStart(y + 1) == YearStart(y) + YearLength(y) && YearLength(y) > 0
  {
  }

  lemma {:induction false} MonthStartsGrow(y: int, a: int, b: int)
    requires 1 <= a < b <= 13
    ensures MonthStart(y, a) + MonthLength(y, a) <= if b == 13 then YearLength(y) else MonthStart(y, b)
    decreases b - a
  {
    hide IsLeap;
    if b == 13 {
      MonthStartForm(y, 12);
      if a < 12 { MonthStartsGrow(y, a, 12); }
    } else if a < b - 1 {
      MonthStartsGrow(y, a, b - 1);
    }
  }

  lemma {:induction false} MonthStartNonNegative(y: int, m: int)
    requires 1 <= m <= 12
    ensures MonthStart(y, m) >= 0
  {
    if m > 1 { MonthStartNonNegative(y, m - 1); }
  }

  /** The conversion to days respects the order of dates. */
  lemma DaysGrow(a: Date, b: Date)
    requires IsValid(a) && IsValid(b) && Earlier(a, b)
    ensures DaysFromCivil(a) < DaysFromCivil(b)
  {
    hide DaysFromCivil; hide YearStart; hide MonthStart; hide IsLeap; hide MonthLength;
    DaysFromCivilCounts(a);
    DaysFromCivilCounts(b);
    if a.y < b.y {
      YearStartsGrow(a.y, b.y);
      MonthStartsGrow(a.y, a.m, 13);
      MonthStartNonNegative(b.y, b.m);
    } else if a.m < b.m {
      MonthStartsGrow(a.y, a.m, b.m);
    }
  }

  /** The conversions are mutually inverse on all valid dates .. */
  lemma CivilRoundTrip(date: Date)
    requires IsValid(date)
    ensures CivilFromDays(DaysFromCivil(date)) == date
  {
    hide DaysFromCivil; hide CivilFromDays; hide MonthLength;
    var back := CivilFromDays(DaysFromCivil(date));
    CivilFromDaysIsRight(DaysFromCivil(date));
    if Earlier(back, date) {
      DaysGrow(back, date);
    } else if Earlier(date, back) {
      DaysGrow(date, back);
    }
  }

  /** .. and later days are later dates. */
  lemma DatesGrow(a: int, b: int)
    requires a < b
    ensures Earlier(CivilFromDays(a), CivilFromDays(b))
  {
    hide DaysFromCivil; hide CivilFromDays; hide IsValid;
    var x, y := CivilFromDays(a), CivilFromDays(b);
    CivilFromDaysIsRight(a);
    CivilFromDaysIsRight(b);
    if Earlier(y, x) {
      DaysGrow(y, x);
    }
  }

  // ---------------------------------------------------------------- clock offsets

  const U32_MAX: int := 0xffff_ffff

  /** Rounding an offset sample to whole minutes; a half minute rounds up. */
  function SnapToMinute(secs: int): (r: int)
    ensures r % 60 == 0 && -30 < r - secs <= 30
  {
    var rem := secs % 60;
    if rem >= 30 then secs + (60 - rem) else secs - rem
  }

  /** Two samples of one whole-minute offset, each off by less than half a minute,
      snap to that offset. */
  lemma SnapAbsorbsWobble(offset: int, wobble: int)
    requires offset % 60 == 0 && -30 <= wobble < 30
    ensures SnapToMinute(offset + wobble) == offset
  {
    if wobble >= 0 {
      Unique(offset + wobble, 60, offset / 60, wobble);
    } else {
      Unique(offset + wobble, 60, offset / 60 - 1, 60 + wobble);
    }
  }

  function Clamp(x: int): (r: int)
    ensures 0 <= r <= U32_MAX
  {
    if x < 0 then 0 else if x > U32_MAX then U32_MAX else x
  }

  function EpochToLocalCivil(secs: int, offset: int): int { Clamp(secs + offset) }

  function LocalCivilToEpoch(secs: int, offset: int): int { Clamp(secs - offset) }

  /** The clamped conversions undo each other exactly when the local time itself fits
      the 32-bit field, or when an offset wider than the whole field clamps both ways
      back to the end it started from. */
  lemma ClampedRoundTrip(secs: int, offset: int)
    requires 0 <= secs <= 0xffff_ffff
    ensures LocalCivilToEpoch(EpochToLocalCivil(secs, offset), offset) == secs
       <==> (0 <= secs + offset <= 0xffff_ffff
             || (secs == 0 && offset > 0xffff_ffff) || (secs == 0xffff_ffff && offset < -0xffff_ffff))
  {
  }
}
