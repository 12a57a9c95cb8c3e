/** Unix seconds to a civil date and time, and the RFC 3339 text of a timestamp. */
module Calendar {
  import opened Common

  const SECONDS_PER_DAY: nat := 86_400
  const DAYS_PER_ERA: nat := 146_097
  /** Days from 0000-03-01 to 1970-01-01. */
  const EPOCH_SHIFT: nat := 719_468

  // ---------------------------------------------------------------- the calendar, by its rules

  datatype Date = Date(year: nat, month: nat, day: nat)

  /** Leap years of the proleptic Gregorian calendar (Appendix C of RFC 3339). */
  predicate IsLeap(year: nat) {
    year % 4 == 0 && (year % 100 != 0 || year % 400 == 0)
  }

  /** Month lengths (section 5.7 of RFC 3339). */
  function DaysInMonth(year: nat, month: nat): nat {
    if month == 2 then (if IsLeap(year) then 29 else 28)
    else if month in {4, 6, 9, 11} then 30
    else 31
  }

  function NextDay(d: Date): Date {
    if d.day < DaysInMonth(d.year, d.month) then d.(day := d.day + 1)
    else if d.month < 12 then Date(d.year, d.month + 1, 1)
    else Date(d.year + 1, 1, 1)
  }

  /** The date `n` days after 1970-01-01. */
  function DateOfDay(n: nat): Date {
    if n == 0 then Date(1970, 1, 1) else NextDay(DateOfDay(n - 1))
  }

  // ---------------------------------------------------------------- the computation

  datatype CivilTime = CivilTime(year: nat, month: nat, day: nat, hour: nat, minute: nat, second: nat)

  /** Year of the era, counted from March. */
  function YearOfEra(doe: nat): int {
    (doe - doe / 1460 + doe / 36524 - doe / 146_096) / 365
  }

  function DayOfYear(doe: nat): int {
    var yoe := YearOfEra(doe);
    doe - (365 * yoe + yoe / 4 - yoe / 100)
  }

  /** Month counted from March, and day, of a day of the March-based year. */
  function MonthOf(doy: int): int {
    (5 * doy + 2) / 153
  }

  function DayOf(doy: int): int {
    doy - (153 * MonthOf(doy) + 2) / 5 + 1
  }

  /** March-based year and day of the day `n` after the epoch: 400-year era, day of era, year of
      era, day of year. */
  function MarchYear(n: nat): int {
    YearOfEra((n + EPOCH_SHIFT) % DAYS_PER_ERA) + (n + EPOCH_SHIFT) / DAYS_PER_ERA * 400
  }

  function MarchDay(n: nat): int {
    DayOfYear((n + EPOCH_SHIFT) % DAYS_PER_ERA)
  }

  function MonthNumber(mp: int): int {
    if mp < 10 then mp + 3 else mp - 9
  }

  /** The civil date of day `doy` of March-based year `y`. */
  function FromMarch(y: int, doy: int): (int, int, int) {
    var m := MonthNumber(MonthOf(doy));
    (if m <= 2 then y + 1 else y, m, DayOf(doy))
  }

  /** The arithmetic of `unix_to_ymdhms` on whole days, before the year is cut to 32 bits. */
  function CivilOfDay(n: nat): (int, int, int) {
    FromMarch(MarchYear(n), MarchDay(n))
  }

  /** `unix_to_ymdhms`. */
  function UnixToCivil(secs: nat): CivilTime {
    Assembled(CivilOfDay(secs / SECONDS_PER_DAY), secs % SECONDS_PER_DAY)
  }

  /** Date fields cut to 32 bits, and the second of the day split. */
  function Assembled(civil: (int, int, int), rem: nat): CivilTime {
    CivilTime(civil.0 % U32_MODULUS, civil.1 % U32_MODULUS, civil.2 % U32_MODULUS,
              rem / 3600, rem % 3600 / 60, rem % 60)
  }

  // ---------------------------------------------------------------- years of an era

  /** Day of the era on which March-based year `yoe` starts. */
  function YearStart(yoe: int): int {
    365 * yoe + yoe / 4 - yoe / 100
  }

  /** Length of March-based year `yoe`: it ends with the February of the next civil year. */
  function YearLength(yoe: int): int {
    if (yoe + 1) % 4 == 0 && ((yoe + 1) % 100 != 0 || (yoe + 1) % 400 == 0) then 366 else 365
  }

  /** A day of the era as century, four-year cycle, year and day; only a cycle's last year has a
      day 365, and a century's last cycle only in the last century. */
  predicate Parts(doe: nat, c: nat, q: nat, r: nat, doy: nat) {
    && c <= 3 && q <= 24 && r <= 3 && doy <= 365
    && (doy == 365 ==> r == 3 && (q == 24 ==> c == 3))
    && doe == 36524 * c + 1461 * q + 365 * r + doy
  }

  lemma SplitDay(doe: nat) returns (c: nat, q: nat, r: nat, doy: nat)
    requires doe < DAYS_PER_ERA
    ensures Parts(doe, c, q, r, doy)
  {
    c := if doe / 36524 == 4 then 3 else doe / 36524;
    var w: nat := doe - 36524 * c;
    q := w / 1461;
    var v: nat := w % 1461;
    r := if v / 365 == 4 then 3 else v / 365;
    doy := v - 365 * r;
  }

  /** The corrections of the formula: how many leap days precede a day of the era. */
  lemma Corrections(doe: nat, c: nat, q: nat, r: nat, doy: nat)
    requires Parts(doe, c, q, r, doy)
    ensures doe / 36524 - doe / 146_096 == c
    ensures doe / 1460 == 25 * c + q + if 24 * c + q + 365 * r + doy >= 1460 then 1 else 0
  {
    var e := if 24 * c + q + 365 * r + doy >= 1460 then 1 else 0;
    assert doe == 1460 * (25 * c + q + e) + (24 * c + q + 365 * r + doy - 1460 * e);
    if doe == 146_096 {
      assert c == 3;
    } else {
      assert doe - 36524 * c < 36524;
    }
  }

  lemma FormulaFindsYear(doe: nat, c: nat, q: nat, r: nat, doy: nat)
    requires Parts(doe, c, q, r, doy)
    ensures YearOfEra(doe) == 100 * c + 4 * q + r && DayOfYear(doe) == doy
  {
    Corrections(doe, c, q, r, doy);
    var e := if 24 * c + q + 365 * r + doy >= 1460 then 1 else 0;
    var yoe := 100 * c + 4 * q + r;
    assert doe - doe / 1460 + doe / 36524 - doe / 146_096 == 365 * yoe + (doy - e);
    assert 0 <= doy - e < 365;
    assert yoe / 4 == 25 * c + q && yoe / 100 == c;
  }

  lemma YearOfEraBrackets(doe: nat)
    requires doe < DAYS_PER_ERA
    ensures var yoe := YearOfEra(doe);
            0 <= yoe < 400 && YearStart(yoe) <= doe < YearStart(yoe) + YearLength(yoe)
  {
    var c, q, r, doy := SplitDay(doe);
    FormulaFindsYear(doe, c, q, r, doy);
  }

  // ---------------------------------------------------------------- years since 0000-03-01

  function YearBegin(y: int): int {
    365 * y + y / 4 - y / 100 + y / 400
  }

  /** Day `z` after 0000-03-01 is day `doy` of March-based year `y`. */
  predicate InYear(z: int, y: int, doy: int) {
    0 <= y && 0 <= doy < YearLength(y) && z == YearBegin(y) + doy
  }

  lemma Divides4(y: nat)
    ensures (y + 1) / 4 == y / 4 + if (y + 1) % 4 == 0 then 1 else 0
  {
  }

  lemma Divides100(y: nat)
    ensures (y + 1) / 100 == y / 100 + if (y + 1) % 100 == 0 then 1 else 0
    ensures (y + 1) % 100 == 0 ==> (y + 1) % 4 == 0
  {
    assert (y + 1) % 100 == 0 ==> y + 1 == 4 * (25 * ((y + 1) / 100));
  }

  lemma Divides400(y: nat)
    ensures (y + 1) / 400 == y / 400 + if (y + 1) % 400 == 0 then 1 else 0
    ensures (y + 1) % 400 == 0 ==> (y + 1) % 100 == 0
  {
    assert (y + 1) % 400 == 0 ==> y + 1 == 100 * (4 * ((y + 1) / 400));
  }

  lemma YearsAdjoin(y: nat)
    ensures YearBegin(y + 1) == YearBegin(y) + YearLength(y)
  {
    Divides4(y);
    Divides100(y);
    Divides400(y);
  }

  lemma {:induction false} YearBeginMonotone(a: nat, b: nat)
    requires a < b
    ensures YearBegin(a) + YearLength(a) <= YearBegin(b)
    decreases b - a
  {
    YearsAdjoin(a);
    if a + 1 < b {
      YearBeginMonotone(a + 1, b);
    }
  }

  lemma YearUnique(z: int, a: int, d: int, b: int, e: int)
    requires InYear(z, a, d) && InYear(z, b, e)
    ensures a == b && d == e
  {
    if a < b {
      YearBeginMonotone(a, b);
    } else if b < a {
      YearBeginMonotone(b, a);
    }
  }

  lemma Shift4(a: int, k: int)
    ensures (a + k * 4) / 4 == a / 4 + k && (a + k * 4) % 4 == a % 4
  {
  }

  lemma Shift100(a: int, k: int)
    ensures (a + k * 100) / 100 == a / 100 + k && (a + k * 100) % 100 == a % 100
  {
  }

  lemma Shift400(a: int, k: int)
    ensures (a + k * 400) / 400 == a / 400 + k && (a + k * 400) % 400 == a % 400
  {
  }

  lemma EraShiftBegin(yoe: int, era: nat)
    requires 0 <= yoe < 400
    ensures YearBegin(yoe + era * 400) == YearStart(yoe) + DAYS_PER_ERA * era
  {
    Shift4(yoe, 100 * era);
    Shift100(yoe, 4 * era);
    Shift400(yoe, era);
  }

  lemma EraShiftLength(yoe: int, era: nat)
    ensures YearLength(yoe + era * 400) == YearLength(yoe)
  {
    Shift4(yoe + 1, 100 * era);
    Shift100(yoe + 1, 4 * era);
    Shift400(yoe + 1, era);
  }

  /** The formula finds the March-based year and day. */
  lemma MarchYearCorrect(n: nat)
    ensures InYear(n + EPOCH_SHIFT, MarchYear(n), MarchDay(n))
  {
    var z := n + EPOCH_SHIFT;
    var era, doe := z / DAYS_PER_ERA, z % DAYS_PER_ERA;
    YearOfEraBrackets(doe);
    EraShiftBegin(YearOfEra(doe), era);
    EraShiftLength(YearOfEra(doe), era);
  }

  /** The day after the last day of a March-based year is the first of the next. */
  lemma NextInYear(z: int, y: int, doy: int, y': int, doy': int)
    requires InYear(z, y, doy) && InYear(z + 1, y', doy')
    ensures if doy + 1 < YearLength(y) then y' == y && doy' == doy + 1 else y' == y + 1 && doy' == 0
  {
    YearsAdjoin(y);
    if doy + 1 < YearLength(y) {
      YearUnique(z + 1, y', doy', y, doy + 1);
    } else {
      YearUnique(z + 1, y', doy', y + 1, 0);
    }
  }

  lemma MarchNext(n: nat)
    ensures var y, doy := MarchYear(n), MarchDay(n);
            if doy + 1 < YearLength(y) then MarchYear(n + 1) == y && MarchDay(n + 1) == doy + 1
            else MarchYear(n + 1) == y + 1 && MarchDay(n + 1) == 0
  {
    MarchYearCorrect(n);
    MarchYearCorrect(n + 1);
    NextInYear(n + EPOCH_SHIFT, MarchYear(n), MarchDay(n), MarchYear(n + 1), MarchDay(n + 1));
  }

  // ---------------------------------------------------------------- months

  function MonthStart(mp: int): int {
    (153 * mp + 2) / 5
  }

  lemma MonthBrackets(doy: int)
    requires 0 <= doy <= 365
    ensures var mp := MonthOf(doy); 0 <= mp <= 11 && MonthStart(mp) <= doy < MonthStart(mp + 1)
    ensures DayOf(doy) == doy - MonthStart(MonthOf(doy)) + 1
  {
  }

  lemma MonthAt(doy: int, mp: int)
    requires 0 <= doy <= 365 && 0 <= mp <= 11 && MonthStart(mp) <= doy < MonthStart(mp + 1)
    ensures MonthOf(doy) == mp
  {
  }

  /** Within a March-based year every month but the last has its calendar length. */
  lemma MonthSpan(y: int, mp: int)
    requires 0 <= y && 0 <= mp <= 10
    ensures var m := MonthNumber(mp);
            MonthStart(mp + 1) - MonthStart(mp) == DaysInMonth(if m <= 2 then y + 1 else y, m)
  {
  }

  lemma FebruarySpan(y: int)
    requires 0 <= y
    ensures YearLength(y) - MonthStart(11) == DaysInMonth(y + 1, 2)
  {
  }

  lemma FromMarchNext(y: int, doy: int, d: Date)
    requires 0 <= y && 0 <= doy < YearLength(y) && IsDate(FromMarch(y, doy), d)
    ensures IsDate(if doy + 1 < YearLength(y) then FromMarch(y, doy + 1) else FromMarch(y + 1, 0), NextDay(d))
  {
    var mp := MonthOf(doy);
    MonthBrackets(doy);
    FebruarySpan(y);
    if mp <= 10 {
      MonthSpan(y, mp);
    }
    if doy + 1 < YearLength(y) {
      MonthBrackets(doy + 1);
      if doy + 1 < MonthStart(mp + 1) {
        MonthAt(doy + 1, mp);
      } else {
        MonthAt(doy + 1, mp + 1);
      }
    } else {
      MonthBrackets(0);
    }
  }

  // ---------------------------------------------------------------- the days agree with the calendar

  ghost predicate IsDate(t: (int, int, int), d: Date) {
    t.0 == d.year && t.1 == d.month && t.2 == d.day
  }

  lemma EpochIsDayZero()
    ensures IsDate(CivilOfDay(0), Date(1970, 1, 1))
  {
    assert EPOCH_SHIFT == 4 * DAYS_PER_ERA + 135_080;
    assert Parts(135_080, 3, 17, 1, 306);
    FormulaFindsYear(135_080, 3, 17, 1, 306);
  }

  lemma {:induction false} MarchInRange(n: nat)
    ensures 0 <= MarchYear(n) && 0 <= MarchDay(n) < YearLength(MarchYear(n))
  {
    MarchYearCorrect(n);
  }

  lemma {:induction false} NextCivil(n: nat)
    ensures var y, doy := MarchYear(n), MarchDay(n);
            CivilOfDay(n + 1) == if doy + 1 < YearLength(y) then FromMarch(y, doy + 1) else FromMarch(y + 1, 0)
  {
    MarchNext(n);
  }

  lemma {:induction false} NextDayIsNext(n: nat, d: Date)
    requires IsDate(CivilOfDay(n), d)
    ensures IsDate(CivilOfDay(n + 1), NextDay(d))
  {
    MarchInRange(n);
    NextCivil(n);
    FromMarchNext(MarchYear(n), MarchDay(n), d);
  }

  /** Whatever starts on 1970-01-01 and steps from each date to the next is the calendar. */
  lemma {:induction false} SteppingIsCalendar(f: nat -> (int, int, int), n: nat)
    requires IsDate(f(0), Date(1970, 1, 1))
    requires forall k: nat, d :: IsDate(f(k), d) ==> IsDate(f(k + 1), NextDay(d))
    ensures IsDate(f(n), DateOfDay(n))
  {
    if n > 0 {
      SteppingIsCalendar(f, n - 1);
      var k: nat := n - 1;
      assert IsDate(f(k + 1), NextDay(DateOfDay(k)));
    }
  }

  /** The arithmetic is the proleptic Gregorian calendar: day 0 is 1970-01-01 and each next day is
      the calendar successor. */
  lemma CivilIsCalendar(n: nat)
    ensures IsDate(CivilOfDay(n), DateOfDay(n))
  {
    EpochIsDayZero();
    forall k: nat, d | IsDate(CivilOfDay(k), d)
      ensures IsDate(CivilOfDay(k + 1), NextDay(d))
    {
      NextDayIsNext(k, d);
    }
    SteppingIsCalendar(CivilOfDay, n);
  }

  lemma {:induction false} DatesInRange(n: nat)
    ensures var d := DateOfDay(n); 1 <= d.month <= 12 && 1 <= d.day <= DaysInMonth(d.year, d.month)
  {
    if n > 0 {
      DatesInRange(n - 1);
    }
  }

  lemma TimeOfDay(rem: nat)
    requires rem < SECONDS_PER_DAY
    ensures rem / 3600 < 24 && rem % 3600 / 60 < 60 && rem % 60 < 60
    ensures rem == 3600 * (rem / 3600) + 60 * (rem % 3600 / 60) + rem % 60
  {
    assert rem % 60 == rem % 3600 % 60 by {
      assert rem == 60 * (60 * (rem / 3600)) + rem % 3600;
    }
  }

  /** The fields are those of date `d` and second `rem`, the year if it fits 32 bits. */
  predicate FieldsExact(t: CivilTime, d: Date, rem: nat) {
    && t.month == d.month && t.day == d.day
    && (t.year == d.year <==> d.year < U32_MODULUS)
    && t.hour < 24 && t.minute < 60 && t.second < 60
    && rem == 3600 * t.hour + 60 * t.minute + t.second
  }

  lemma AssembledExact(civil: (int, int, int), d: Date, rem: nat)
    requires IsDate(civil, d) && d.month <= 12 && d.day <= 31 && rem < SECONDS_PER_DAY
    ensures FieldsExact(Assembled(civil, rem), d, rem)
  {
    TimeOfDay(rem);
  }

  /** For every second count the fields are the calendar date of its day and the time within it,
      and the year is right exactly when it fits 32 bits. */
  lemma UnixToCivilExact(secs: nat)
    ensures FieldsExact(UnixToCivil(secs), DateOfDay(secs / SECONDS_PER_DAY), secs % SECONDS_PER_DAY)
  {
    var n := secs / SECONDS_PER_DAY;
    DatesInRange(n);
    CivilIsCalendar(n);
    AssembledExact(CivilOfDay(n), DateOfDay(n), secs % SECONDS_PER_DAY);
  }

  // ---------------------------------------------------------------- order of dates

  predicate DateLess(a: Date, b: Date) {
    || a.year < b.year
    || (a.year == b.year && a.month < b.month)
    || (a.year == b.year && a.month == b.month && a.day < b.day)
  }

  lemma {:induction false} LaterDayLaterDate(n: nat, m: nat)
    requires n < m
    ensures DateLess(DateOfDay(n), DateOfDay(m))
    decreases m
  {
    DatesInRange(m - 1);
    if n < m - 1 {
      LaterDayLaterDate(n, m - 1);
    }
  }

  // ---------------------------------------------------------------- the text

  function Pow10(w: nat): nat {
    if w == 0 then 1 else 10 * Pow10(w - 1)
  }

  function Digit(n: nat): char
    requires n < 10
  {
    "0123456789"[n]
  }

  /** The low `w` decimal digits of `n`. */
  function Digits(n: nat, w: nat): (r: string)
    ensures |r| == w
  {
    if w == 0 then [] else Digits(n / 10, w - 1) + [Digit(n % 10)]
  }

  function Decimal(n: nat): string {
    if n < 10 then [Digit(n)] else Decimal(n / 10) + [Digit(n % 10)]
  }

  /** Rust's `{n:0w}`: at least `w` digits. */
  function Padded(n: nat, w: nat): string {
    if n < Pow10(w) then Digits(n, w) else Decimal(n)
  }

  /** One padded field, its separator, and the rest of the text. */
  function Field(n: nat, w: nat, sep: char, rest: string): string {
    Padded(n, w) + ([sep] + rest)
  }

  function ClockText(t: CivilTime, micros: nat): string {
    Field(t.hour, 2, ':', Field(t.minute, 2, ':', Field(t.second, 2, '.', Field(micros, 6, 'Z', ""))))
  }

  function TextOf(t: CivilTime, micros: nat): string {
    Field(t.year, 4, '-', Field(t.month, 2, '-', Field(t.day, 2, 'T', ClockText(t, micros))))
  }

  function Rfc3339(secs: nat, micros: nat): string {
    TextOf(UnixToCivil(secs), micros)
  }

  /** Fixed-width fields, each followed by its separator. */
  function Joined(values: seq<nat>, widths: seq<nat>, seps: string): string
    requires |values| == |widths| == |seps|
  {
    if values == [] then ""
    else Digits(values[0], widths[0]) + ([seps[0]] + Joined(values[1..], widths[1..], seps[1..]))
  }

  predicate TupleLess(a: seq<nat>, b: seq<nat>)
    requires |a| == |b|
  {
    a != [] && (a[0] < b[0] || (a[0] == b[0] && TupleLess(a[1..], b[1..])))
  }

  lemma {:induction false} LexOfConcat(a: string, x: string, b: string, y: string)
    requires |a| == |b|
    ensures LexLess(a + x, b + y) <==> LexLess(a, b) || (a == b && LexLess(x, y))
    decreases |a|
  {
    if a == [] {
      assert a + x == x && b + y == y;
    } else {
      assert (a + x)[1..] == a[1..] + x && (b + y)[1..] == b[1..] + y;
      LexOfConcat(a[1..], x, b[1..], y);
      assert a == [a[0]] + a[1..] && b == [b[0]] + b[1..];
    }
  }

  lemma DigitOrder(n: nat, m: nat)
    requires n < 10 && m < 10
    ensures Digit(n) < Digit(m) <==> n < m
    ensures Digit(n) == Digit(m) <==> n == m
  {
  }

  /** Fixed-width decimal text orders as the numbers do. */
  lemma {:induction false} DigitsOrder(n: nat, m: nat, w: nat)
    requires n < Pow10(w) && m < Pow10(w)
    ensures LexLess(Digits(n, w), Digits(m, w)) <==> n < m
    ensures Digits(n, w) == Digits(m, w) <==> n == m
  {
    if w > 0 {
      DigitsOrder(n / 10, m / 10, w - 1);
      DigitOrder(n % 10, m % 10);
      var a, b := [Digit(n % 10)], [Digit(m % 10)];
      LexOfConcat(Digits(n / 10, w - 1), a, Digits(m / 10, w - 1), b);
      assert a[1..] == [] && b[1..] == [];
      assert Digits(n, w)[..w - 1] == Digits(n / 10, w - 1) && Digits(m, w)[..w - 1] == Digits(m / 10, w - 1);
      assert Digits(n, w)[w - 1] == Digit(n % 10) && Digits(m, w)[w - 1] == Digit(m % 10);
    }
  }

  predicate Fit(values: seq<nat>, widths: seq<nat>) {
    |values| == |widths| && forall i :: 0 <= i < |values| ==> values[i] < Pow10(widths[i])
  }

  lemma {:induction false} JoinedOrder(a: seq<nat>, b: seq<nat>, widths: seq<nat>, seps: string)
    requires Fit(a, widths) && Fit(b, widths) && |widths| == |seps|
    ensures LexLess(Joined(a, widths, seps), Joined(b, widths, seps)) <==> TupleLess(a, b)
    decreases |a|
  {
    if a != [] {
      var w, x, y := widths[0], Joined(a[1..], widths[1..], seps[1..]), Joined(b[1..], widths[1..], seps[1..]);
      DigitsOrder(a[0], b[0], w);
      JoinedOrder(a[1..], b[1..], widths[1..], seps[1..]);
      LexOfConcat(Digits(a[0], w), [seps[0]] + x, Digits(b[0], w), [seps[0]] + y);
      LexOfConcat([seps[0]], x, [seps[0]], y);
      LexTotal([seps[0]], [seps[0]]);
      LexTotal(Digits(a[0], w), Digits(b[0], w));
    }
  }

  const WIDTHS: seq<nat> := [4, 2, 2, 2, 2, 2, 6]
  const SEPARATORS: string := "--T::.Z"

  function Fields(t: CivilTime, micros: nat): seq<nat> {
    [t.year, t.month, t.day, t.hour, t.minute, t.second, micros]
  }

  lemma PowersOfTen()
    ensures Pow10(2) == 100 && Pow10(4) == 10_000 && Pow10(6) == 1_000_000
  {
    assert Pow10(3) == 1000;
    assert Pow10(5) == 100_000;
  }

  lemma JoinedTail(values: seq<nat>, widths: seq<nat>, seps: string, i: nat)
    requires Fit(values, widths) && |widths| == |seps| && i < |values|
    ensures Joined(values[i..], widths[i..], seps[i..])
         == Field(values[i], widths[i], seps[i], Joined(values[i + 1..], widths[i + 1..], seps[i + 1..]))
  {
    assert values[i..][1..] == values[i + 1..] && widths[i..][1..] == widths[i + 1..] && seps[i..][1..] == seps[i + 1..];
  }

  lemma ClockIsJoined(t: CivilTime, micros: nat)
    requires Fit(Fields(t, micros), WIDTHS)
    ensures ClockText(t, micros) == Joined(Fields(t, micros)[3..], WIDTHS[3..], SEPARATORS[3..])
  {
    var v, w, c := Fields(t, micros), WIDTHS, SEPARATORS;
    JoinedTail(v, w, c, 3);
    JoinedTail(v, w, c, 4);
    JoinedTail(v, w, c, 5);
    JoinedTail(v, w, c, 6);
    assert v[7..] == [] && w[7..] == [] && c[7..] == "";
  }

  /** The text is the seven fields at fixed widths. */
  lemma TextIsJoined(t: CivilTime, micros: nat)
    requires Fit(Fields(t, micros), WIDTHS)
    ensures TextOf(t, micros) == Joined(Fields(t, micros), WIDTHS, SEPARATORS)
  {
    var v, w, c := Fields(t, micros), WIDTHS, SEPARATORS;
    ClockIsJoined(t, micros);
    JoinedTail(v, w, c, 0);
    JoinedTail(v, w, c, 1);
    JoinedTail(v, w, c, 2);
    assert v[0..] == v && w[0..] == w && c[0..] == c;
  }

  /** A point in time: second, then microsecond. */
  predicate Earlier(secs: nat, micros: nat, secs': nat, micros': nat) {
    secs < secs' || (secs == secs' && micros < micros')
  }

  /** Field by field, an earlier time has the smaller tuple. */
  lemma EarlierTuple(t: CivilTime, t': CivilTime, d: Date, d': Date, rem: nat, rem': nat, micros: nat, micros': nat)
    requires FieldsExact(t, d, rem) && FieldsExact(t', d', rem') && t.year == d.year && t'.year == d'.year
    requires DateLess(d, d') || (d == d' && Earlier(rem, micros, rem', micros'))
    ensures TupleLess(Fields(t, micros), Fields(t', micros'))
  {
    var a, b := Fields(t, micros), Fields(t', micros');
    TupleTail(a, b, 0);
    TupleTail(a, b, 1);
    TupleTail(a, b, 2);
    TupleTail(a, b, 3);
    TupleTail(a, b, 4);
    TupleTail(a, b, 5);
    TupleTail(a, b, 6);
    assert a[0..] == a && b[0..] == b;
  }

  lemma TupleTail(a: seq<nat>, b: seq<nat>, i: nat)
    requires |a| == |b| && i < |a|
    ensures TupleLess(a[i..], b[i..]) <==> a[i] < b[i] || (a[i] == b[i] && TupleLess(a[i + 1..], b[i + 1..]))
  {
    assert a[i..][1..] == a[i + 1..] && b[i..][1..] == b[i + 1..];
  }

  lemma YearsUpTo9999Fit(secs: nat, micros: nat)
    requires DateOfDay(secs / SECONDS_PER_DAY).year <= 9999 && micros < 1_000_000
    ensures Fit(Fields(UnixToCivil(secs), micros), WIDTHS)
  {
    UnixToCivilExact(secs);
    DatesInRange(secs / SECONDS_PER_DAY);
    PowersOfTen();
  }

  lemma EarlierTextFirst(secs: nat, micros: nat, secs': nat, micros': nat)
    requires DateOfDay(secs / SECONDS_PER_DAY).year <= 9999 && micros < 1_000_000
    requires DateOfDay(secs' / SECONDS_PER_DAY).year <= 9999 && micros' < 1_000_000
    requires Earlier(secs, micros, secs', micros')
    ensures LexLess(Rfc3339(secs, micros), Rfc3339(secs', micros'))
  {
    var n, n' := secs / SECONDS_PER_DAY, secs' / SECONDS_PER_DAY;
    var t, t' := UnixToCivil(secs), UnixToCivil(secs');
    UnixToCivilExact(secs);
    UnixToCivilExact(secs');
    EarlierParts(secs, micros, secs', micros');
    EarlierTuple(t, t', DateOfDay(n), DateOfDay(n'), secs % SECONDS_PER_DAY, secs' % SECONDS_PER_DAY, micros, micros');
    YearsUpTo9999Fit(secs, micros);
    YearsUpTo9999Fit(secs', micros');
    EarlierFieldsFirst(t, micros, t', micros');
  }

  lemma {:induction false} EarlierFieldsFirst(t: CivilTime, micros: nat, t': CivilTime, micros': nat)
    requires Fit(Fields(t, micros), WIDTHS) && Fit(Fields(t', micros'), WIDTHS)
    requires TupleLess(Fields(t, micros), Fields(t', micros'))
    ensures LexLess(TextOf(t, micros), TextOf(t', micros'))
  {
    TextIsJoined(t, micros);
    TextIsJoined(t', micros');
    JoinedOrder(Fields(t, micros), Fields(t', micros'), WIDTHS, SEPARATORS);
  }

  /** An earlier time is on an earlier date, or earlier on the same date. */
  lemma {:induction false} EarlierParts(secs: nat, micros: nat, secs': nat, micros': nat)
    requires Earlier(secs, micros, secs', micros')
    ensures var d, d' := DateOfDay(secs / SECONDS_PER_DAY), DateOfDay(secs' / SECONDS_PER_DAY);
            || DateLess(d, d')
            || (d == d' && Earlier(secs % SECONDS_PER_DAY, micros, secs' % SECONDS_PER_DAY, micros'))
  {
    if secs / SECONDS_PER_DAY < secs' / SECONDS_PER_DAY {
      LaterDayLaterDate(secs / SECONDS_PER_DAY, secs' / SECONDS_PER_DAY);
    }
  }

  /** For years up to 9999 the text of `now_rfc3339` orders lexicographically as time does
      (section 5.1 of RFC 3339). */
  lemma TextOrderIsTimeOrder(secs: nat, micros: nat, secs': nat, micros': nat)
    requires DateOfDay(secs / SECONDS_PER_DAY).year <= 9999 && micros < 1_000_000
    requires DateOfDay(secs' / SECONDS_PER_DAY).year <= 9999 && micros' < 1_000_000
    ensures LexLess(Rfc3339(secs, micros), Rfc3339(secs', micros')) <==> Earlier(secs, micros, secs', micros')
  {
    if Earlier(secs, micros, secs', micros') {
      EarlierTextFirst(secs, micros, secs', micros');
    } else {
      if Earlier(secs', micros', secs, micros) {
        EarlierTextFirst(secs', micros', secs, micros);
      }
      LexTotal(Rfc3339(secs, micros), Rfc3339(secs', micros'));
    }
  }

  // ---------------------------------------------------------------- reading the text back

  /** The number a string of decimal digits denotes. */
  function Read(text: string): int {
    if text == "" then 0 else 10 * Read(text[..|text| - 1]) + (text[|text| - 1] as int - '0' as int)
  }

  predicate IsNumeral(text: string) {
    text != "" && forall i :: 0 <= i < |text| ==> '0' <= text[i] <= '9'
  }

  lemma DigitReads(n: nat)
    requires n < 10
    ensures '0' <= Digit(n) <= '9' && Digit(n) as int - '0' as int == n
  {
  }

  lemma {:induction false} OneMoreDigit(front: string, n: nat)
    requires n < 10 && (front == "" || IsNumeral(front))
    ensures IsNumeral(front + [Digit(n)]) && Read(front + [Digit(n)]) == 10 * Read(front) + n
  {
    var text := front + [Digit(n)];
    DigitReads(n);
    assert text[..|text| - 1] == front;
  }

  lemma {:induction false} DigitsRead(n: nat, w: nat)
    requires n < Pow10(w)
    ensures Read(Digits(n, w)) == n && (w > 0 ==> IsNumeral(Digits(n, w)))
    decreases w
  {
    if w > 0 {
      DigitsRead(n / 10, w - 1);
      OneMoreDigit(Digits(n / 10, w - 1), n % 10);
    }
  }

  lemma {:induction false} DecimalReads(n: nat)
    ensures IsNumeral(Decimal(n)) && Read(Decimal(n)) == n
    ensures n > 0 ==> Decimal(n)[0] != '0'
    decreases n
  {
    if n < 10 {
      OneMoreDigit("", n);
      assert "" + [Digit(n)] == [Digit(n)];
    } else {
      DecimalReads(n / 10);
      OneMoreDigit(Decimal(n / 10), n % 10);
    }
  }

  /** A padded number reads back as itself: at its width if it fits there, else without leading zeros. */
  lemma PaddedReadsBack(n: nat, w: nat)
    requires w > 0
    ensures IsNumeral(Padded(n, w)) && Read(Padded(n, w)) == n
    ensures |Padded(n, w)| == w || Padded(n, w)[0] != '0'
  {
    if n < Pow10(w) {
      DigitsRead(n, w);
    } else {
      Pow10Positive(w);
      DecimalReads(n);
    }
  }

  lemma {:induction false} Pow10Positive(w: nat)
    ensures Pow10(w) > 0
  {
    if w > 0 {
      Pow10Positive(w - 1);
    }
  }

  /** A numeral of `w` digits that denotes `n`. */
  predicate Denotes(text: string, w: nat, n: nat) {
    IsNumeral(text) && |text| == w && Read(text) == n
  }

  lemma {:induction false} FixedWidthDenotes(n: nat, w: nat)
    requires n < Pow10(w) && w > 0
    ensures Denotes(Padded(n, w), w, n)
  {
    PaddedReadsBack(n, w);
  }

  lemma ClockLayout(t: CivilTime, micros: nat)
    ensures ClockText(t, micros)
         == Padded(t.hour, 2) + ":" + Padded(t.minute, 2) + ":" + Padded(t.second, 2) + "." + Padded(micros, 6) + "Z"
  {
    var micro := Field(micros, 6, 'Z', "");
    assert micro == Padded(micros, 6) + "Z";
    var second := Field(t.second, 2, '.', micro);
    assert second == Padded(t.second, 2) + "." + micro;
    var minute := Field(t.minute, 2, ':', second);
    assert minute == Padded(t.minute, 2) + ":" + second;
  }

  lemma DateParts(y: string, m: string, d: string, rest: string)
    ensures y + (['-'] + (m + (['-'] + (d + (['T'] + rest))))) == y + "-" + m + "-" + d + "T" + rest
  {
  }

  lemma TextLayout(t: CivilTime, micros: nat)
    ensures TextOf(t, micros)
         == Padded(t.year, 4) + "-" + Padded(t.month, 2) + "-" + Padded(t.day, 2) + "T" + ClockText(t, micros)
  {
    DateParts(Padded(t.year, 4), Padded(t.month, 2), Padded(t.day, 2), ClockText(t, micros));
  }

  lemma ClockPositions(h: string, mi: string, sec: string, u: string)
    requires |h| == |mi| == |sec| == 2 && |u| == 6
    ensures var x := h + ":" + mi + ":" + sec + "." + u + "Z";
            && |x| == 16 && x[2] == ':' && x[5] == ':' && x[8] == '.' && x[15] == 'Z'
            && x[..2] == h && x[3..5] == mi && x[6..8] == sec && x[9..15] == u
  {
  }

  lemma DatePositions(y: string, m: string, d: string, rest: string)
    requires |y| == 4 && |m| == |d| == 2
    ensures var x := y + "-" + m + "-" + d + "T" + rest;
            && |x| == 11 + |rest| && x[4] == '-' && x[7] == '-' && x[10] == 'T'
            && x[..4] == y && x[5..7] == m && x[8..10] == d && x[11..] == rest
  {
  }

  /** The date part of a text: ten characters and a "T". */
  predicate DateReads(text: string, d: Date) {
    && |text| >= 11 && text[4] == '-' && text[7] == '-' && text[10] == 'T'
    && Denotes(text[..4], 4, d.year) && Denotes(text[5..7], 2, d.month) && Denotes(text[8..10], 2, d.day)
  }

  /** The time part behind it: to the microsecond, and a "Z". */
  predicate ClockReads(text: string, rem: nat, micros: nat) {
    && |text| == 16 && text[2] == ':' && text[5] == ':' && text[8] == '.' && text[15] == 'Z'
    && Denotes(text[..2], 2, rem / 3600)
    && Denotes(text[3..5], 2, rem % 3600 / 60)
    && Denotes(text[6..8], 2, rem % 60)
    && Denotes(text[9..15], 6, micros)
  }

  /** For every second count whose year is at most 9999, the text reads back, position by position, as
      the calendar date of the day and the time within it. */
  lemma TextReadsBack(secs: nat, micros: nat)
    requires DateOfDay(secs / 86_400).year <= 9999 && micros < 1_000_000
    ensures var text := Rfc3339(secs, micros);
            && |text| == 27
            && DateReads(text, DateOfDay(secs / 86_400))
            && ClockReads(text[11..], secs % 86_400, micros)
  {
    var t := UnixToCivil(secs);
    FieldsDenote(secs, micros);
    ClockLayout(t, micros);
    ClockPositions(Padded(t.hour, 2), Padded(t.minute, 2), Padded(t.second, 2), Padded(micros, 6));
    TextLayout(t, micros);
    DatePositions(Padded(t.year, 4), Padded(t.month, 2), Padded(t.day, 2), ClockText(t, micros));
  }

  lemma Unique(hour: nat, rem: nat, minute: nat, second: nat)
    requires minute < 60 && second < 60 && rem == 3600 * hour + 60 * minute + second
    ensures hour == rem / 3600 && minute == rem % 3600 / 60 && second == rem % 60
  {
    assert rem == 3600 * hour + (60 * minute + second);
    assert rem == 60 * (60 * hour + minute) + second;
  }

  lemma {:induction false} AllDenote(t: CivilTime, micros: nat)
    requires Fit(Fields(t, micros), WIDTHS)
    ensures Denotes(Padded(t.year, 4), 4, t.year) && Denotes(Padded(t.month, 2), 2, t.month)
    ensures Denotes(Padded(t.day, 2), 2, t.day) && Denotes(Padded(t.hour, 2), 2, t.hour)
    ensures Denotes(Padded(t.minute, 2), 2, t.minute) && Denotes(Padded(t.second, 2), 2, t.second)
    ensures Denotes(Padded(micros, 6), 6, micros)
  {
    var v, w := Fields(t, micros), WIDTHS;
    assert v[0] < Pow10(w[0]) && v[1] < Pow10(w[1]) && v[2] < Pow10(w[2]) && v[3] < Pow10(w[3]);
    assert v[4] < Pow10(w[4]) && v[5] < Pow10(w[5]) && v[6] < Pow10(w[6]);
    FixedWidthDenotes(t.year, 4);
    FixedWidthDenotes(t.month, 2);
    FixedWidthDenotes(t.day, 2);
    FixedWidthDenotes(t.hour, 2);
    FixedWidthDenotes(t.minute, 2);
    FixedWidthDenotes(t.second, 2);
    FixedWidthDenotes(micros, 6);
  }

  lemma {:induction false} FieldsDenote(secs: nat, micros: nat)
    requires DateOfDay(secs / 86_400).year <= 9999 && micros < 1_000_000
    ensures var t, d, rem := UnixToCivil(secs), DateOfDay(secs / 86_400), secs % 86_400;
            && Denotes(Padded(t.year, 4), 4, d.year) && Denotes(Padded(t.month, 2), 2, d.month)
            && Denotes(Padded(t.day, 2), 2, d.day) && Denotes(Padded(t.hour, 2), 2, rem / 3600)
            && Denotes(Padded(t.minute, 2), 2, rem % 3600 / 60) && Denotes(Padded(t.second, 2), 2, rem % 60)
            && Denotes(Padded(micros, 6), 6, micros)
  {
    var t := UnixToCivil(secs);
    UnixToCivilExact(secs);
    YearsUpTo9999Fit(secs, micros);
    Unique(t.hour, secs % 86_400, t.minute, t.second);
    AllDenote(t, micros);
  }
}
