/**
 Timestamps as civil dates: Hinnant's day-number arithmetic over every 64-bit
 timestamp, against the Gregorian calendar stated by its leap-year rule and
 month lengths alone.
 */
module Calendar {
  import opened Bytes
  import opened Decimal

  const I64_MIN := -0x8000_0000_0000_0000
  const I64_MAX := 0x7FFF_FFFF_FFFF_FFFF

  predicate I64(n: int)
  {
    I64_MIN <= n <= I64_MAX
  }

  datatype Date = Date(year: int, month: int, day: int)

  // ---------- The calendar ----------

  predicate Leap(year: int)
  {
    year % 4 == 0 && (year % 100 != 0 || year % 400 == 0)
  }

  function MonthLength(year: int, month: int): (n: int)
  {
    if month == 2 then (if Leap(year) then 29 else 28)
    else if month == 4 || month == 6 || month == 9 || month == 11 then 30
    else 31
  }

  predicate ValidDate(d: Date)
  {
    1 <= d.month <= 12 && 1 <= d.day <= MonthLength(d.year, d.month)
  }

  function NextDay(d: Date): (r: Date)
  {
    if d.day < MonthLength(d.year, d.month) then Date(d.year, d.month, d.day + 1)
    else if d.month < 12 then Date(d.year, d.month + 1, 1)
    else Date(d.year + 1, 1, 1)
  }

  predicate Before(a: Date, b: Date)
  {
    a.year < b.year || (a.year == b.year && (a.month < b.month || (a.month == b.month && a.day < b.day)))
  }

  // ---------- The conversion ----------

  /** Rust's `/`, which truncates toward zero. */
  function TruncDiv(a: int, b: int): (q: int)
    requires b > 0
  {
    if a >= 0 then a / b else -((-a) / b)
  }

  function EraOf(z: int): (era: int)
  {
    if z >= 0 then TruncDiv(z, 146_097) else TruncDiv(z - 146_096, 146_097)
  }

  function YearOfEra(doe: int): (yoe: int)
  {
    (doe - doe / 1460 + doe / 36_524 - doe / 146_096) / 365
  }

  /** Month and day within the year that starts in March of `y`. */
  function DateOf(y: int, doy: int): (r: Date)
  {
    var mp := (5 * doy + 2) / 153;
    var d := doy - (153 * mp + 2) / 5 + 1;
    var m := if mp < 10 then mp + 3 else mp - 9;
    Date(if m <= 2 then y + 1 else y, m, d)
  }

  function CivilFromDays(days: int): (r: Date)
  {
    var z := days + 719_468;
    var era := EraOf(z);
    var doe := z - era * 146_097;
    var yoe := YearOfEra(doe);
    DateOf(yoe + era * 400, doe - (365 * yoe + yoe / 4 - yoe / 100))
  }

  /** Days before the first of March of year `y`, counted from the first of March of year 0. */
  function DaysToMarch(y: int): (n: int)
  {
    365 * y + y / 4 - y / 100 + y / 400
  }

  /** Days from the first of March to the first of the `mp`-th month after it. */
  function MonthStart(mp: int): (n: int)
  {
    (153 * mp + 2) / 5
  }

  /** The day number of a date, 1970-01-01 being 0. */
  function DayNumber(d: Date): (n: int)
  {
    var y := if d.month <= 2 then d.year - 1 else d.year;
    var mp := if d.month <= 2 then d.month + 9 else d.month - 3;
    DaysToMarch(y) + MonthStart(mp) + d.day - 1 - 719_468
  }

  // ---------- Arithmetic of one era ----------

  lemma EraBounds(z: int)
    ensures EraOf(z) == z / 146_097 && 0 <= z - EraOf(z) * 146_097 < 146_097
  {
  }

  /** The era cut by hand: century, four-year cycle, year of the cycle, day of the year. */
  predicate EraParts(c: int, q: int, i: int, k: int)
  {
    && 0 <= c < 4 && 0 <= q < 25 && 0 <= i < 4
    && 0 <= k <= (if i == 3 && (q < 24 || c == 3) then 365 else 364)
  }

  lemma YearOfParts(c: int, q: int, i: int, k: int)
    requires EraParts(c, q, i, k)
    ensures YearOfEra(36_524 * c + 1461 * q + 365 * i + k) == 100 * c + 4 * q + i
  {
    var doe := 36_524 * c + 1461 * q + 365 * i + k;
    var y := 100 * c + 4 * q + i;
    var t := (24 * c + q + 365 * i + k) / 1460;
    assert 0 <= t <= 1;
    assert doe / 1460 == 25 * c + q + t;
    var last := if doe == 146_096 then 1 else 0;
    assert doe / 146_096 == last;
    assert doe / 36_524 == c + last;
    assert doe - doe / 1460 + doe / 36_524 - doe / 146_096 == 365 * y + k - t;
    assert 0 <= k - t < 365;
  }

  /** Every day of the era has such parts. */
  lemma PartsOf(doe: int) returns (c: int, q: int, i: int, k: int)
    requires 0 <= doe < 146_097
    ensures EraParts(c, q, i, k) && doe == 36_524 * c + 1461 * q + 365 * i + k
  {
    c := if doe == 146_096 then 3 else doe / 36_524;
    var r := doe - 36_524 * c;
    q := if r == 36_524 then 24 else r / 1461;
    var s := r - 1461 * q;
    i := if s == 1460 then 3 else s / 365;
    k := s - 365 * i;
  }

  lemma MarchOfParts(c: int, q: int, i: int)
    requires 0 <= c < 4 && 0 <= q < 25 && 0 <= i < 4
    ensures var y := 100 * c + 4 * q + i;
            && 365 * y + y / 4 - y / 100 == 36_524 * c + 1461 * q + 365 * i
            && (Leap(y + 1) <==> i == 3 && (q < 24 || c == 3))
  {
    var y := 100 * c + 4 * q + i;
    assert y / 4 == 25 * c + q && y / 100 == c;
    if i == 3 {
      assert y + 1 == 4 * (25 * c + q + 1);
      if q == 24 {
        assert y + 1 == 100 * (c + 1);
      } else {
        assert (y + 1) % 100 == 4 * (q + 1);
      }
    } else {
      assert (y + 1) % 4 == i + 1;
    }
  }

  lemma MonthOfYear(doy: int)
    requires 0 <= doy <= 365
    ensures var mp := (5 * doy + 2) / 153;
            0 <= mp < 12 && MonthStart(mp) <= doy && doy - MonthStart(mp) < MonthStart(mp + 1) - MonthStart(mp)
  {
  }

  /** March-based months have the calendar's lengths, February apart. */
  lemma MonthLengths(year: int, mp: int)
    requires 0 <= mp < 11
    ensures MonthLength(year, if mp < 10 then mp + 3 else mp - 9) == MonthStart(mp + 1) - MonthStart(mp)
  {
  }

  lemma DivShift(x: int, k: int, d: int)
    requires d == 4 || d == 100 || d == 400
    ensures (x + d * k) / d == x / d + k && (x + d * k) % d == x % d
  {
  }

  lemma EraShift(era: int, yoe: int)
    requires 0 <= yoe < 400
    ensures DaysToMarch(yoe + era * 400) == era * 146_097 + 365 * yoe + yoe / 4 - yoe / 100
    ensures Leap(yoe + era * 400 + 1) <==> Leap(yoe + 1)
  {
    DivShift(yoe, era * 100, 4);
    DivShift(yoe, era * 4, 100);
    DivShift(yoe, era, 400);
    DivShift(yoe + 1, era * 100, 4);
    DivShift(yoe + 1, era * 4, 100);
    DivShift(yoe + 1, era, 400);
  }

  // ---------- The conversion is right ----------

  lemma DateOfValid(y: int, doy: int)
    requires 0 <= doy <= (if Leap(y + 1) then 365 else 364)
    ensures ValidDate(DateOf(y, doy))
    ensures DayNumber(DateOf(y, doy)) == DaysToMarch(y) + doy - 719_468
  {
    MonthOfYear(doy);
    var mp := (5 * doy + 2) / 153;
    var date := DateOf(y, doy);
    assert date.day == doy - MonthStart(mp) + 1;
    if mp < 11 {
      MonthLengths(date.year, mp);
    } else {
      assert MonthStart(11) == 337;
    }
  }

  /** The year found and the day of that year, which the year really has. */
  lemma YearFound(z: int)
    ensures var era := EraOf(z);
            var yoe := YearOfEra(z - era * 146_097);
            var doy := z - era * 146_097 - (365 * yoe + yoe / 4 - yoe / 100);
            && 0 <= yoe < 400
            && 0 <= doy <= (if Leap(yoe + era * 400 + 1) then 365 else 364)
            && DaysToMarch(yoe + era * 400) + doy == z
  {
    hide YearOfEra, EraOf, DaysToMarch, Leap;
    EraBounds(z);
    var era := EraOf(z);
    var c, q, i, k := PartsOf(z - era * 146_097);
    YearOfParts(c, q, i, k);
    MarchOfParts(c, q, i);
    EraShift(era, 100 * c + 4 * q + i);
  }

  /** The date is a real one and its day number is the one converted. */
  lemma CivilRoundTrip(days: int)
    ensures ValidDate(CivilFromDays(days))
    ensures DayNumber(CivilFromDays(days)) == days
  {
    hide YearOfEra, EraOf, DateOf, DayNumber, DaysToMarch, Leap, ValidDate;
    var z := days + 719_468;
    YearFound(z);
    var era := EraOf(z);
    var yoe := YearOfEra(z - era * 146_097);
    DateOfValid(yoe + era * 400, z - era * 146_097 - (365 * yoe + yoe / 4 - yoe / 100));
  }

  lemma MarchStep(y: int)
    ensures DaysToMarch(y + 1) == DaysToMarch(y) + 365 + (if Leap(y + 1) then 1 else 0)
  {
    assert (y + 1) / 4 == y / 4 + (if (y + 1) % 4 == 0 then 1 else 0);
    assert (y + 1) / 100 == y / 100 + (if (y + 1) % 100 == 0 then 1 else 0);
    assert (y + 1) / 400 == y / 400 + (if (y + 1) % 400 == 0 then 1 else 0);
    assert (y + 1) % 400 == 0 ==> (y + 1) % 100 == 0;
    assert (y + 1) % 100 == 0 ==> (y + 1) % 4 == 0;
  }

  lemma {:induction false} MarchMonotone(y: int, n: nat)
    ensures DaysToMarch(y) <= DaysToMarch(y + n)
  {
    if n > 0 {
      MarchMonotone(y, n - 1);
      MarchStep(y + n - 1);
    }
  }

  function MarchYear(d: Date): (y: int)
  {
    if d.month <= 2 then d.year - 1 else d.year
  }

  function MarchMonth(d: Date): (mp: int)
  {
    if d.month <= 2 then d.month + 9 else d.month - 3
  }

  /** A valid date's day number lies within its month and its March-based year. */
  lemma DayWithinMonth(d: Date)
    requires ValidDate(d)
    ensures var base := DaysToMarch(MarchYear(d)) - 719_468;
            && base + MonthStart(MarchMonth(d)) <= DayNumber(d)
            && (MarchMonth(d) < 11 ==> DayNumber(d) < base + MonthStart(MarchMonth(d) + 1))
            && DayNumber(d) < DaysToMarch(MarchYear(d) + 1) - 719_468
  {
    MarchStep(MarchYear(d));
    if MarchMonth(d) < 11 {
      MonthLengths(d.year, MarchMonth(d));
      MonthStarts(MarchMonth(d) + 1, 11);
    }
  }

  lemma MonthStarts(a: int, b: int)
    requires 0 <= a <= b <= 11
    ensures MonthStart(a) <= MonthStart(b) <= 337
  {
  }

  /** Later dates have larger day numbers. */
  lemma DayNumberMonotone(a: Date, b: Date)
    requires ValidDate(a) && ValidDate(b) && Before(a, b)
    ensures DayNumber(a) < DayNumber(b)
  {
    hide DaysToMarch, Leap;
    DayWithinMonth(a);
    DayWithinMonth(b);
    if MarchYear(a) < MarchYear(b) {
      MarchMonotone(MarchYear(a) + 1, MarchYear(b) - MarchYear(a) - 1);
      MonthStarts(0, MarchMonth(b));
    } else if MarchMonth(a) < MarchMonth(b) {
      MonthStarts(MarchMonth(a) + 1, MarchMonth(b));
    }
  }

  /** Every valid date is the conversion of its own day number. */
  lemma CivilOfDayNumber(d: Date)
    requires ValidDate(d)
    ensures CivilFromDays(DayNumber(d)) == d
  {
    var e := CivilFromDays(DayNumber(d));
    CivilRoundTrip(DayNumber(d));
    if Before(d, e) {
      DayNumberMonotone(d, e);
    } else if Before(e, d) {
      DayNumberMonotone(e, d);
    }
  }

  /** The conversion starts at 1970-01-01 and follows the calendar one day at a time. */
  lemma CivilSteps(days: int)
    ensures CivilFromDays(0) == Date(1970, 1, 1)
    ensures CivilFromDays(days + 1) == NextDay(CivilFromDays(days))
  {
    hide CivilFromDays, NextDay, ValidDate;
    assert Date(1970, 1, 1) == CivilFromDays(0) by {
      EpochDay();
      CivilOfDayNumber(Date(1970, 1, 1));
    }
    var d := CivilFromDays(days);
    CivilRoundTrip(days);
    NextDayNumber(d);
    CivilOfDayNumber(NextDay(d));
  }

  lemma EpochDay()
    ensures ValidDate(Date(1970, 1, 1)) && DayNumber(Date(1970, 1, 1)) == 0
  {
  }

  lemma NextDayNumber(d: Date)
    requires ValidDate(d)
    ensures ValidDate(NextDay(d)) && DayNumber(NextDay(d)) == DayNumber(d) + 1
  {
    hide DaysToMarch;
    if d.day == MonthLength(d.year, d.month) {
      MarchStep(d.year - 1);
      if d.month != 2 {
        MonthLengths(d.year, MarchMonth(d));
      }
    }
  }

  /** Dates are strictly increasing in the day number. */
  lemma CivilMonotone(a: int, b: int)
    requires a < b
    ensures Before(CivilFromDays(a), CivilFromDays(b))
  {
    CivilRoundTrip(a);
    CivilRoundTrip(b);
    hide CivilFromDays, DayNumber, ValidDate;
    var x, y := CivilFromDays(a), CivilFromDays(b);
    if Before(y, x) {
      DayNumberMonotone(y, x);
    }
  }

  // ---------- Timestamps ----------

  /** Every intermediate of a 64-bit timestamp's conversion fits the type it has in the source. */
  lemma NoOverflow(ts: int)
    requires I64(ts)
    ensures var z := ts / 86_400 + 719_468;
            var era := EraOf(z);
            var doe := z - era * 146_097;
            var yoe := YearOfEra(doe);
            var doy := doe - (365 * yoe + yoe / 4 - yoe / 100);
            var date := CivilFromDays(ts / 86_400);
            && I64(z) && I64(z - 146_096) && I64(era * 146_097) && 0 <= doe && 0 <= yoe && 0 <= doy
            && doe - doe / 1460 >= 0 && doe - doe / 1460 + doe / 36_524 - doe / 146_096 >= 0
            && I64(era * 400) && I64(yoe + era * 400) && I64(date.year)
            && 1 <= date.month <= 12 && 1 <= date.day <= 31
  {
    hide YearOfEra, EraOf, DaysToMarch, Leap, CivilFromDays;
    var z := ts / 86_400 + 719_468;
    EraBounds(z);
    YearFound(z);
    YearShift(ts / 86_400);
    CivilRoundTrip(ts / 86_400);
  }

  lemma YearShift(days: int)
    ensures var era := EraOf(days + 719_468);
            var y := YearOfEra(days + 719_468 - era * 146_097) + era * 400;
            CivilFromDays(days).year == y || CivilFromDays(days).year == y + 1
  {
    hide YearOfEra, EraOf;
  }

  /** `{:04}`: zero-padded to four characters, the sign counted. */
  function FormatYear(y: int): (s: string)
    ensures s != "" && (s[0] == '-' <==> y < 0)
  {
    if y < 0 then "-" + Padded(-y, 3) else Padded(y, 4)
  }

  function FormatClock(month: nat, day: nat, hours: nat, minutes: nat, secs: nat): (s: string)
  {
    "-" + Padded(month, 2) + "-" + Padded(day, 2)
    + " " + Padded(hours, 2) + ":" + Padded(minutes, 2) + ":" + Padded(secs, 2) + " UTC"
  }

  function FormatUnix(ts: int): (s: string)
  {
    CivilRoundTrip(ts / 86_400);
    var date := CivilFromDays(ts / 86_400);
    var second := ts % 86_400;
    FormatYear(date.year) + FormatClock(date.month, date.day, second / 3600, second % 3600 / 60, second % 60)
  }

  // ---------- Reading a rendered timestamp ----------

  /** The two digits at `i`. */
  function Pair(s: string, i: nat): (n: nat)
  {
    if i + 2 <= |s| && AllDigits(s[i..i + 2]) then DecValue(s[i..i + 2]) else 0
  }

  /** The instant a text spells: the year, then `-MM-DD hh:mm:ss UTC`. */
  function ReadUnix(s: string): (ts: int)
    requires |s| >= 19
  {
    var year, clock := s[..|s| - 19], s[|s| - 19..];
    DayNumber(Date(ReadInt(year), Pair(clock, 1), Pair(clock, 4))) * 86_400
    + Pair(clock, 7) * 3600 + Pair(clock, 10) * 60 + Pair(clock, 13)
  }

  lemma YearReads(y: int)
    ensures ReadInt(FormatYear(y)) == y
  {
    if y < 0 {
      PaddedRoundTrip(-y, 3);
      assert FormatYear(y)[1..] == Padded(-y, 3);
    } else {
      PaddedRoundTrip(y, 4);
    }
  }

  lemma PairReads(s: string, i: nat, n: nat)
    requires i + 2 <= |s| && s[i..i + 2] == Padded(n, 2)
    ensures Pair(s, i) == n
  {
    PaddedRoundTrip(n, 2);
  }

  lemma ClockFields(month: nat, day: nat, hours: nat, minutes: nat, secs: nat)
    requires month < 100 && day < 100 && hours < 100 && minutes < 100 && secs < 100
    ensures var s := FormatClock(month, day, hours, minutes, secs);
            && |s| == 19
            && s[1..3] == Padded(month, 2) && s[4..6] == Padded(day, 2) && s[7..9] == Padded(hours, 2)
            && s[10..12] == Padded(minutes, 2) && s[13..15] == Padded(secs, 2)
  {
    hide Padded;
    TwoDigits(month);
    TwoDigits(day);
    TwoDigits(hours);
    TwoDigits(minutes);
    TwoDigits(secs);
  }

  lemma ClockReads(month: nat, day: nat, hours: nat, minutes: nat, secs: nat)
    requires month < 100 && day < 100 && hours < 100 && minutes < 100 && secs < 100
    ensures var s := FormatClock(month, day, hours, minutes, secs);
            && |s| == 19 && Pair(s, 1) == month && Pair(s, 4) == day
            && Pair(s, 7) == hours && Pair(s, 10) == minutes && Pair(s, 13) == secs
  {
    hide FormatClock, Pair;
    var s := FormatClock(month, day, hours, minutes, secs);
    ClockFields(month, day, hours, minutes, secs);
    PairReads(s, 1, month);
    PairReads(s, 4, day);
    PairReads(s, 7, hours);
    PairReads(s, 10, minutes);
    PairReads(s, 13, secs);
  }

  /** Reading a rendered timestamp gives the timestamp back. */
  lemma FormatUnixRoundTrip(ts: int)
    ensures |FormatUnix(ts)| >= 19 && ReadUnix(FormatUnix(ts)) == ts
  {
    hide FormatYear, FormatClock, CivilFromDays, DayNumber, ReadInt, Pair;
    CivilRoundTrip(ts / 86_400);
    var d, r := CivilFromDays(ts / 86_400), ts % 86_400;
    var year := FormatYear(d.year);
    var clock := FormatClock(d.month, d.day, r / 3600, r % 3600 / 60, r % 60);
    YearReads(d.year);
    ClockReads(d.month, d.day, r / 3600, r % 3600 / 60, r % 60);
    SecondOfDay(r);
    var s := year + clock;
    assert s[..|s| - 19] == year && s[|s| - 19..] == clock;
  }

  /** `-MM-DD hh:mm:ss UTC`, every number of two digits. */
  predicate ClockShaped(s: string)
  {
    && |s| == 19 && s[0] == '-' && s[3] == '-' && s[6] == ' ' && s[9] == ':' && s[12] == ':' && s[15..] == " UTC"
    && AllDigits(s[1..3]) && AllDigits(s[4..6]) && AllDigits(s[7..9]) && AllDigits(s[10..12]) && AllDigits(s[13..15])
  }

  /** At least four characters, a sign counted, and no zeros beyond that. */
  predicate YearShaped(s: string)
  {
    && |s| >= 4
    && var digits := if s[0] == '-' then s[1..] else s;
    && AllDigits(digits) && (|s| > 4 ==> digits[0] != '0')
  }

  lemma ClockIsShaped(month: nat, day: nat, hours: nat, minutes: nat, secs: nat)
    requires month < 100 && day < 100 && hours < 100 && minutes < 100 && secs < 100
    ensures ClockShaped(FormatClock(month, day, hours, minutes, secs))
  {
    hide Padded;
    ClockFields(month, day, hours, minutes, secs);
    TwoDigits(month);
    TwoDigits(day);
    TwoDigits(hours);
    TwoDigits(minutes);
    TwoDigits(secs);
  }

  lemma YearIsShaped(y: int)
    ensures YearShaped(FormatYear(y))
    ensures 0 <= y <= 9999 ==> |FormatYear(y)| == 4
  {
    hide Padded;
    if y < 0 {
      PaddedShape(-y, 3);
      assert FormatYear(y)[1..] == Padded(-y, 3);
    } else {
      PaddedShape(y, 4);
    }
  }

  /** What the text looks like: a year of at least four characters, then the fixed-width rest. */
  lemma FormatUnixShape(ts: int)
    ensures var s, year := FormatUnix(ts), CivilFromDays(ts / 86_400).year;
            && |s| >= 23 && YearShaped(s[..|s| - 19]) && ClockShaped(s[|s| - 19..])
            && (0 <= year <= 9999 ==> |s| == 23)
  {
    hide FormatYear, FormatClock, CivilFromDays, YearShaped, ClockShaped;
    CivilRoundTrip(ts / 86_400);
    var d, r := CivilFromDays(ts / 86_400), ts % 86_400;
    YearIsShaped(d.year);
    ClockIsShaped(d.month, d.day, r / 3600, r % 3600 / 60, r % 60);
    YearAndClock(FormatYear(d.year), FormatClock(d.month, d.day, r / 3600, r % 3600 / 60, r % 60));
  }

  lemma YearAndClock(year: string, clock: string)
    requires YearShaped(year) && ClockShaped(clock)
    ensures var s := year + clock;
            |s| == |year| + 19 >= 23 && s[..|s| - 19] == year && s[|s| - 19..] == clock
  {
  }

  /** So different timestamps never share a rendering. */
  lemma FormatUnixInjective(a: int, b: int)
    ensures FormatUnix(a) == FormatUnix(b) <==> a == b
  {
    FormatUnixRoundTrip(a);
    FormatUnixRoundTrip(b);
  }

  lemma SecondOfDay(s: int)
    requires 0 <= s < 86_400
    ensures s == s / 3600 * 3600 + s % 3600 / 60 * 60 + s % 60
  {
  }
}
