/** Run-directory stamps: Hinnant's civil-from-days against the calendar's own successor rule. */
module Calendar {

  datatype Date = Date(year: int, month: int, day: int)

  /** Division truncating toward zero, as on the source's signed integers. */
  function TruncDiv(a: int, b: int): int
    requires b > 0
  {
    if a >= 0 then a / b else -((-a) / b)
  }

  /** The date `z` days after 1970-01-01. */
  function CivilFromDays(z: int): Date {
    var shifted := z + 719_468;
    DateInEra(EraOf(shifted), DayOfEra(shifted))
  }

  function EraOf(shifted: int): int {
    TruncDiv(if shifted >= 0 then shifted else shifted - 146_096, 146_097)
  }

  function DayOfEra(shifted: int): int {
    shifted - EraOf(shifted) * 146_097
  }

  /** Day `doe` of a 400-year era that starts on March 1. */
  function DateInEra(era: int, doe: int): Date {
    DateInYear(YearOf(doe) + era * 400, doe - YearStart(YearOf(doe)))
  }

  /** The year of the era that holds day `doe`. */
  function YearOf(doe: int): int {
    (doe - doe / 1460 + doe / 36_524 - doe / 146_096) / 365
  }

  /** Days of an era before its year `y`. */
  function YearStart(y: int): int {
    365 * y + y / 4 - y / 100
  }

  /** Day `doy` of the year that starts on March 1 of `year`. */
  function DateInYear(year: int, doy: int): Date {
    var mp := (5 * doy + 2) / 153;
    var d := doy - (153 * mp + 2) / 5 + 1;
    var m := if mp < 10 then mp + 3 else mp - 9;
    Date(year + (if m <= 2 then 1 else 0), m, d)
  }

  // ----- the calendar itself, Appendix C of RFC 3339 -----

  predicate LeapYear(year: int) {
    year % 4 == 0 && (year % 100 != 0 || year % 400 == 0)
  }

  function MonthLength(year: int, month: int): int {
    if month == 2 then (if LeapYear(year) then 29 else 28)
    else if month == 4 || month == 6 || month == 9 || month == 11 then 30
    else 31
  }

  predicate ValidDate(d: Date) {
    1 <= d.month <= 12 && 1 <= d.day <= MonthLength(d.year, d.month)
  }

  function NextDay(d: Date): Date {
    if d.day < MonthLength(d.year, d.month) then d.(day := d.day + 1)
    else if d.month < 12 then Date(d.year, d.month + 1, 1)
    else Date(d.year + 1, 1, 1)
  }

  // ----- years of an era -----

  /** Day `doe` lies in year `y` of its era. */
  predicate InYear(doe: int, y: int) {
    0 <= y <= 399 && YearStart(y) <= doe && if y < 399 then doe < YearStart(y + 1) else doe <= 146_096
  }

  /** Century `c`, four-year cycle `f`, day `k` of the cycle: the quotient chain finds year
      `g` of the cycle, where the fourth year takes the leap day. */
  lemma YearInCycle(c: nat, f: nat, k: nat)
    requires c <= 3 && f <= 24 && k <= 1460 && (f == 24 ==> k < 1460)
    ensures var g := if k == 1460 then 3 else k / 365;
            YearOf(36_524 * c + 1461 * f + k) == 100 * c + 4 * f + g
  {
    var doe := 36_524 * c + 1461 * f + k;
    var spill := 24 * c + f + k;
    var carry := if spill < 1460 then 0 else 1;
    assert doe / 36_524 == c;
    assert doe / 146_096 == 0;
    assert doe == 1460 * (25 * c + f) + spill;
    assert doe / 1460 == 25 * c + f + carry;
    assert doe - doe / 1460 + c == 365 * (100 * c + 4 * f) + (k - carry);
    if carry == 1 {
      assert 1364 <= k <= 1460;
    }
  }

  lemma StartInCycle(c: nat, f: nat, g: nat)
    requires c <= 3 && f <= 24 && g <= 3
    ensures YearStart(100 * c + 4 * f + g) == 36_524 * c + 1461 * f + 365 * g
    ensures g < 3 || f < 24 ==>
              YearStart(100 * c + 4 * f + g + 1) == 36_524 * c + 1461 * f + 365 * (g + 1) + (if g == 3 then 1 else 0)
    ensures g == 3 && f == 24 && c < 3 ==> YearStart(100 * c + 4 * f + g + 1) == 36_524 * (c + 1)
  {}

  lemma CycleHoldsDay(c: nat, f: nat, k: nat)
    requires c <= 3 && f <= 24 && k <= 1460 && (f == 24 ==> k < 1460)
    ensures InYear(36_524 * c + 1461 * f + k, 100 * c + 4 * f + if k == 1460 then 3 else k / 365)
  {
    StartInCycle(c, f, if k == 1460 then 3 else k / 365);
  }

  /** The quotient chain finds the year that holds the day. */
  lemma YearHoldsDay(doe: int)
    requires 0 <= doe <= 146_096
    ensures InYear(doe, YearOf(doe))
  {
    if doe < 146_096 {
      hide InYear, YearOf;
      var c, n := doe / 36_524, doe % 36_524;
      var f, k := n / 1461, n % 1461;
      assert doe == 36_524 * c + 1461 * f + k;
      YearInCycle(c, f, k);
      CycleHoldsDay(c, f, k);
    }
  }

  lemma YearStartsIncrease(a: int, b: int)
    requires 0 <= a < b
    ensures YearStart(a + 1) <= YearStart(b)
  {}

  lemma YearIsUnique(doe: int, y: int)
    requires 0 <= doe <= 146_096 && InYear(doe, y)
    ensures YearOf(doe) == y
  {
    YearHoldsDay(doe);
    if YearOf(doe) < y {
      YearStartsIncrease(YearOf(doe), y);
    }
    if y < YearOf(doe) {
      YearStartsIncrease(y, YearOf(doe));
    }
  }

  // ----- one day later -----

  /** The length of the year from March 1 of `year`; its February is next year's. */
  function MarchYearLength(year: int): int {
    if LeapYear(year + 1) then 366 else 365
  }

  lemma EraKeepsLeapRule(n: int, era: int)
    ensures (n + era * 400) % 4 == n % 4
    ensures (n + era * 400) % 100 == n % 100
    ensures (n + era * 400) % 400 == n % 400
  {
    assert n == 400 * (n / 400) + n % 400;
    assert n + era * 400 == 400 * (n / 400 + era) + n % 400;
    assert (n + era * 400) % 400 == n % 400;
    assert forall x :: x % 4 == (x % 400) % 4;
    assert forall x :: x % 100 == (x % 400) % 100;
  }

  lemma QuotientStep(t: nat)
    requires t >= 1
    ensures t / 4 - (t - 1) / 4 == if t % 4 == 0 then 1 else 0
    ensures t / 100 - (t - 1) / 100 == if t % 100 == 0 then 1 else 0
  {}

  lemma YearLengths(era: int, y: int)
    requires 0 <= y <= 399
    ensures (if y < 399 then YearStart(y + 1) else 146_097) - YearStart(y) == MarchYearLength(y + era * 400)
  {
    EraKeepsLeapRule(y + 1, era);
    assert y + era * 400 + 1 == y + 1 + era * 400;
    QuotientStep(y + 1);
  }

  lemma StepInYear(year: int, doy: int)
    requires 0 <= doy < MarchYearLength(year)
    ensures ValidDate(DateInYear(year, doy))
    ensures doy + 1 < MarchYearLength(year) ==> DateInYear(year, doy + 1) == NextDay(DateInYear(year, doy))
    ensures doy + 1 == MarchYearLength(year) ==> DateInYear(year + 1, 0) == NextDay(DateInYear(year, doy))
  {}

  /** The days split into eras by flooring, for either sign, and in one way only. */
  lemma EraSplit(shifted: int)
    ensures 0 <= DayOfEra(shifted) <= 146_096
  {}

  lemma EraIsUnique(shifted: int, era: int, doe: int)
    requires 0 <= doe <= 146_096 && shifted == era * 146_097 + doe
    ensures EraOf(shifted) == era && DayOfEra(shifted) == doe
  {
    EraSplit(shifted);
  }

  /** Every day has one place: an era, a year of it, a day of that year. */
  ghost predicate Placed(z: int, era: int, y: int, doy: int) {
    && 0 <= y <= 399 && 0 <= doy < MarchYearLength(y + era * 400)
    && z + 719_468 == era * 146_097 + YearStart(y) + doy
  }

  lemma PlacedInEra(z: int, era: int, y: int, doy: int)
    requires Placed(z, era, y, doy)
    ensures 0 <= YearStart(y) + doy <= 146_096 && InYear(YearStart(y) + doy, y)
  {
    YearLengths(era, y);
    if y < 399 {
      YearStartsIncrease(y, 399);
    }
  }

  lemma CivilOfPlace(z: int, era: int, y: int, doy: int)
    requires Placed(z, era, y, doy)
    ensures CivilFromDays(z) == DateInYear(y + era * 400, doy)
  {
    var doe := YearStart(y) + doy;
    PlacedInEra(z, era, y, doy);
    EraIsUnique(z + 719_468, era, doe);
    assert CivilFromDays(z) == DateInEra(era, doe);
    YearIsUnique(doe, y);
    assert doe - YearStart(YearOf(doe)) == doy;
  }

  lemma Place(z: int) returns (era: int, y: int, doy: int)
    ensures Placed(z, era, y, doy)
  {
    era := EraOf(z + 719_468);
    EraSplit(z + 719_468);
    var doe := DayOfEra(z + 719_468);
    YearHoldsDay(doe);
    y := YearOf(doe);
    YearLengths(era, y);
    doy := doe - YearStart(y);
  }

  lemma NextPlace(z: int, era: int, y: int, doy: int)
    requires Placed(z, era, y, doy)
    ensures doy + 1 < MarchYearLength(y + era * 400) ==> Placed(z + 1, era, y, doy + 1)
    ensures doy + 1 == MarchYearLength(y + era * 400) && y < 399 ==> Placed(z + 1, era, y + 1, 0)
    ensures doy + 1 == MarchYearLength(y + era * 400) && y == 399 ==> Placed(z + 1, era + 1, 0, 0)
  {
    YearLengths(era, y);
  }

  lemma NextPlaceIsNextDay(z: int, era: int, y: int, doy: int, era': int, y': int, doy': int)
    requires Placed(z, era, y, doy) && Placed(z + 1, era', y', doy')
    requires DateInYear(y' + era' * 400, doy') == NextDay(DateInYear(y + era * 400, doy))
    ensures CivilFromDays(z + 1) == NextDay(CivilFromDays(z))
  {
    CivilOfPlace(z, era, y, doy);
    CivilOfPlace(z + 1, era', y', doy');
  }

  /** Every day is followed by its calendar successor. */
  lemma CivilFollowsCalendar(z: int)
    ensures CivilFromDays(z + 1) == NextDay(CivilFromDays(z))
  {
    var era, y, doy := Place(z);
    var year := y + era * 400;
    NextPlace(z, era, y, doy);
    StepInYear(year, doy);
    if doy + 1 < MarchYearLength(year) {
      NextPlaceIsNextDay(z, era, y, doy, era, y, doy + 1);
    } else if y < 399 {
      assert y + 1 + era * 400 == year + 1;
      NextPlaceIsNextDay(z, era, y, doy, era, y + 1, 0);
    } else {
      assert 0 + (era + 1) * 400 == year + 1;
      NextPlaceIsNextDay(z, era, y, doy, era + 1, 0, 0);
    }
  }

  /** Every result is a date of the calendar. */
  lemma CivilIsValid(z: int)
    ensures ValidDate(CivilFromDays(z))
  {
    var era, y, doy := Place(z);
    CivilOfPlace(z, era, y, doy);
    StepInYear(y + era * 400, doy);
  }

  /** Walking the calendar day by day from the epoch. */
  function DaysLater(d: Date, n: nat): Date {
    if n == 0 then d else NextDay(DaysLater(d, n - 1))
  }

  lemma EpochDate()
    ensures CivilFromDays(0) == Date(1970, 1, 1)
  {}

  lemma OneMoreDay(n: nat)
    requires CivilFromDays(n) == DaysLater(Date(1970, 1, 1), n)
    ensures CivilFromDays(n + 1) == DaysLater(Date(1970, 1, 1), n + 1)
  {
    CivilFollowsCalendar(n);
  }

  /** The arithmetic computes what counting days on the calendar gives. */
  lemma {:induction false} CivilCountsDays(n: nat)
    ensures CivilFromDays(n) == DaysLater(Date(1970, 1, 1), n)
  {
    EpochDate();
    if n > 0 {
      CivilCountsDays(n - 1);
      OneMoreDay(n - 1);
    }
  }

  // ----- stamps -----

  /** Dates in calendar order. */
  predicate Before(a: Date, b: Date) {
    a.year < b.year || (a.year == b.year && (a.month < b.month || (a.month == b.month && a.day < b.day)))
  }

  lemma BeforeNextDay(a: Date, d: Date)
    requires ValidDate(d) && (a == d || Before(a, d))
    ensures Before(a, NextDay(d)) && ValidDate(NextDay(d))
  {}

  lemma {:induction false} CountingAdvances(d: Date, a: nat, b: nat)
    requires ValidDate(d) && a <= b
    ensures ValidDate(DaysLater(d, b))
    ensures if a < b then Before(DaysLater(d, a), DaysLater(d, b)) else DaysLater(d, a) == DaysLater(d, b)
  {
    if b > 0 {
      if a == b {
        CountingAdvances(d, 0, b - 1);
        BeforeNextDay(DaysLater(d, b - 1), DaysLater(d, b - 1));
      } else {
        CountingAdvances(d, a, b - 1);
        BeforeNextDay(DaysLater(d, a), DaysLater(d, b - 1));
      }
    }
  }

  /** Later days have later dates. */
  lemma LaterDaysLater(a: nat, b: nat)
    requires a < b
    ensures Before(CivilFromDays(a), CivilFromDays(b))
  {
    var epoch := Date(1970, 1, 1);
    CountingAdvances(epoch, a, b);
    CivilCountsDays(a);
    CivilCountsDays(b);
  }

  /** `n` in decimal, zero-padded to at least `width` digits. */
  function Padded(n: nat, width: nat): string {
    var digit := ['0' + (n % 10) as char];
    if n < 10 && width <= 1 then digit else Padded(n / 10, if width > 0 then width - 1 else 0) + digit
  }

  lemma AfterEpoch(n: nat)
    ensures CivilFromDays(n).year >= 1970 && 1 <= CivilFromDays(n).month <= 12 && 1 <= CivilFromDays(n).day <= 31
  {
    CivilIsValid(n);
    EpochDate();
    if n > 0 {
      LaterDaysLater(0, n);
    }
  }

  /** `YYYYMMDD`, then `rest`. */
  function DateStamp(date: Date, rest: string): string
    requires date.year >= 0 && date.month >= 0 && date.day >= 0
  {
    Padded(date.year, 4) + (Padded(date.month, 2) + (Padded(date.day, 2) + rest))
  }

  /** `THHMMSSZ`. */
  function ClockStamp(hour: nat, minute: nat, second: nat): string {
    "T" + (Padded(hour, 2) + (Padded(minute, 2) + (Padded(second, 2) + "Z")))
  }

  /** `YYYYMMDDTHHMMSSZ` for second `rem` of day `day`. */
  function Stamp(day: nat, rem: nat): string {
    AfterEpoch(day);
    DateStamp(CivilFromDays(day), ClockStamp(rem / 3600, (rem % 3600) / 60, rem % 60))
  }

  /** Epoch seconds as `YYYYMMDDTHHMMSSZ`, always UTC. */
  function FormatUtcCompact(epochSecs: nat): string {
    Stamp(epochSecs / 86_400, epochSecs % 86_400)
  }

  /** The order of strings: the first differing character decides, a proper prefix comes first. */
  predicate LexLess(a: string, b: string) {
    |b| > 0 && (|a| == 0 || a[0] < b[0] || (a[0] == b[0] && LexLess(a[1..], b[1..])))
  }

  lemma {:induction false} LexAsymmetric(a: string, b: string)
    ensures !(LexLess(a, b) && LexLess(b, a)) && !LexLess(a, a)
    decreases |a| + |b|
  {
    if |a| > 0 && |b| > 0 {
      LexAsymmetric(a[1..], b[1..]);
    }
    if |a| > 0 && |b| == 0 {
      LexAsymmetric(a[1..], b);
    }
  }

  lemma {:induction false} LexAfterPrefix(p: string, a: string, b: string)
    requires LexLess(a, b)
    ensures LexLess(p + a, p + b)
  {
    if |p| == 0 {
      assert p + a == a && p + b == b;
    } else {
      LexAfterPrefix(p[1..], a, b);
      assert (p + a)[1..] == p[1..] + a && (p + b)[1..] == p[1..] + b;
    }
  }

  lemma {:induction false} LexIgnoresTail(a: string, b: string, x: string, y: string)
    requires |a| == |b| && LexLess(a, b)
    ensures LexLess(a + x, b + y)
  {
    assert (a + x)[0] == a[0] && (b + y)[0] == b[0];
    if a[0] == b[0] {
      LexIgnoresTail(a[1..], b[1..], x, y);
      assert (a + x)[1..] == a[1..] + x && (b + y)[1..] == b[1..] + y;
    }
  }

  function Pow10(width: nat): nat {
    if width == 0 then 1 else 10 * Pow10(width - 1)
  }

  lemma {:induction false} PaddedWidth(n: nat, width: nat)
    requires width > 0 && n < Pow10(width)
    ensures |Padded(n, width)| == width
  {
    if width > 1 {
      PaddedWidth(n / 10, width - 1);
    }
  }

  /** Fixed-width numbers order as strings the way they order as numbers. */
  lemma {:induction false} PaddedAscends(n: nat, m: nat, width: nat)
    requires width > 0 && n < m < Pow10(width)
    ensures LexLess(Padded(n, width), Padded(m, width))
  {
    if width > 1 {
      var a, b := ['0' + (n % 10) as char], ['0' + (m % 10) as char];
      PaddedWidth(n / 10, width - 1);
      PaddedWidth(m / 10, width - 1);
      if n / 10 < m / 10 {
        PaddedAscends(n / 10, m / 10, width - 1);
        LexIgnoresTail(Padded(n / 10, width - 1), Padded(m / 10, width - 1), a, b);
      } else {
        assert LexLess(a, b);
        LexAfterPrefix(Padded(n / 10, width - 1), a, b);
      }
    }
  }

  /** One fixed-width field in front of a tail: the field decides, then the tail. */
  lemma FieldOrder(n: nat, m: nat, width: nat, x: string, y: string)
    requires width > 0 && n <= m < Pow10(width) && (n < m || LexLess(x, y))
    ensures LexLess(Padded(n, width) + x, Padded(m, width) + y)
  {
    if n < m {
      PaddedWidth(n, width);
      PaddedWidth(m, width);
      PaddedAscends(n, m, width);
      LexIgnoresTail(Padded(n, width), Padded(m, width), x, y);
    } else {
      LexAfterPrefix(Padded(n, width), x, y);
    }
  }

  lemma FieldWidths()
    ensures Pow10(2) == 100 && Pow10(4) == 10_000
  {
    assert Pow10(1) == 10;
  }

  /** Hour, minute and second in clock order. */
  predicate ClockBefore(h: nat, m: nat, s: nat, h': nat, m': nat, s': nat) {
    h < h' || (h == h' && (m < m' || (m == m' && s < s')))
  }

  lemma ClockOrder(h: nat, m: nat, s: nat, h': nat, m': nat, s': nat)
    requires h' < 24 && m < 60 && m' < 60 && s < 60 && s' < 60 && ClockBefore(h, m, s, h', m', s')
    ensures LexLess(ClockStamp(h, m, s), ClockStamp(h', m', s'))
  {
    FieldWidths();
    var a, b := Padded(s, 2) + "Z", Padded(s', 2) + "Z";
    if h == h' {
      if m == m' {
        FieldOrder(s, s', 2, "Z", "Z");
      }
      FieldOrder(m, m', 2, a, b);
    }
    FieldOrder(h, h', 2, Padded(m, 2) + a, Padded(m', 2) + b);
    LexAfterPrefix("T", Padded(h, 2) + (Padded(m, 2) + a), Padded(h', 2) + (Padded(m', 2) + b));
  }

  /** The remainder of the day splits into a clock time that advances with it. */
  lemma ClockAdvances(r: nat, q: nat)
    requires r < q < 86_400
    ensures ClockBefore(r / 3600, (r % 3600) / 60, r % 60, q / 3600, (q % 3600) / 60, q % 60)
    ensures q / 3600 < 24 && (q % 3600) / 60 < 60 && (r % 3600) / 60 < 60
  {}

  lemma DateOrder(d: Date, e: Date, x: string, y: string)
    requires 0 <= d.year && e.year <= 9999 && 0 <= d.month < 100 && 0 <= e.month < 100 && 0 <= d.day < 100
    requires 0 <= e.day < 100
    requires Before(d, e) || (d == e && LexLess(x, y))
    ensures LexLess(DateStamp(d, x), DateStamp(e, y))
  {
    FieldWidths();
    var day, day' := Padded(d.day, 2) + x, Padded(e.day, 2) + y;
    if d.year == e.year {
      if d.month == e.month {
        FieldOrder(d.day, e.day, 2, x, y);
      }
      FieldOrder(d.month, e.month, 2, day, day');
    }
    FieldOrder(d.year, e.year, 4, Padded(d.month, 2) + day, Padded(e.month, 2) + day');
  }

  lemma LaterDayStamp(a: nat, r: nat, b: nat, q: nat)
    requires a < b && CivilFromDays(b).year <= 9999
    ensures LexLess(Stamp(a, r), Stamp(b, q))
  {
    AfterEpoch(a);
    AfterEpoch(b);
    LaterDaysLater(a, b);
    DateOrder(CivilFromDays(a), CivilFromDays(b),
              ClockStamp(r / 3600, (r % 3600) / 60, r % 60), ClockStamp(q / 3600, (q % 3600) / 60, q % 60));
  }

  lemma SameDayStamp(day: nat, r: nat, q: nat)
    requires r < q < 86_400 && CivilFromDays(day).year <= 9999
    ensures LexLess(Stamp(day, r), Stamp(day, q))
  {
    AfterEpoch(day);
    ClockAdvances(r, q);
    ClockOrder(r / 3600, (r % 3600) / 60, r % 60, q / 3600, (q % 3600) / 60, q % 60);
    DateOrder(CivilFromDays(day), CivilFromDays(day),
              ClockStamp(r / 3600, (r % 3600) / 60, r % 60), ClockStamp(q / 3600, (q % 3600) / 60, q % 60));
  }

  /** The first second of the year 10000. */
  const YEAR_10000: nat := 253_402_300_800

  lemma LastFourDigitDay()
    ensures CivilFromDays(2_932_896) == Date(9999, 12, 31)
  {}

  lemma ThroughYear9999(day: nat)
    requires day <= 2_932_896
    ensures CivilFromDays(day).year <= 9999
  {
    LastFourDigitDay();
    if day < 2_932_896 {
      LaterDaysLater(day, 2_932_896);
    }
  }

  lemma EarlierStampFirst(s: nat, t: nat)
    requires s < t < YEAR_10000
    ensures LexLess(FormatUtcCompact(s), FormatUtcCompact(t))
  {
    ThroughYear9999(t / 86_400);
    if s / 86_400 < t / 86_400 {
      LaterDayStamp(s / 86_400, s % 86_400, t / 86_400, t % 86_400);
    } else {
      assert s / 86_400 == t / 86_400;
      SameDayStamp(t / 86_400, s % 86_400, t % 86_400);
    }
  }

  /** Through year 9999 the stamps order, as strings, exactly as the seconds they print. */
  lemma StampsOrderAsSeconds(s: nat, t: nat)
    requires s < YEAR_10000 && t < YEAR_10000
    ensures s < t <==> LexLess(FormatUtcCompact(s), FormatUtcCompact(t))
  {
    LexAsymmetric(FormatUtcCompact(s), FormatUtcCompact(t));
    if s < t {
      EarlierStampFirst(s, t);
    }
    if t < s {
      EarlierStampFirst(t, s);
    }
  }
}
