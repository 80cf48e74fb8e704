/** UTC instants of the Gregorian calendar and clamped month arithmetic. */
module Calendar {
  import opened Wrappers
  import Decimal
  import Text

  const MICROSECONDS_PER_DAY := 86_400_000_000

  datatype Instant = Instant(year: nat, month: nat, day: nat, time: nat)

  predicate IsLeap(year: nat) {
    year % 4 == 0 && (year % 100 != 0 || year % 400 == 0)
  }

  function MonthLength(year: nat, month: nat): (days: nat)
    requires 1 <= month <= 12
    ensures 28 <= days <= 31
  {
    if month == 2 then if IsLeap(year) then 29 else 28
    else if month in {4, 6, 9, 11} then 30
    else 31
  }

  predicate Valid(i: Instant) {
    1 <= i.month <= 12 && 1 <= i.day <= MonthLength(i.year, i.month) && i.time < MICROSECONDS_PER_DAY
  }

  predicate Before(a: Instant, b: Instant) {
    || a.year < b.year
    || (a.year == b.year && a.month < b.month)
    || (a.year == b.year && a.month == b.month && a.day < b.day)
    || (a.year == b.year && a.month == b.month && a.day == b.day && a.time < b.time)
  }

  /** Months counted from January of year 0. */
  function MonthIndex(i: Instant): nat
    requires Valid(i)
  {
    i.year * 12 + i.month - 1
  }

  function LengthOf(index: nat): (days: nat)
    ensures 28 <= days <= 31
  {
    MonthLength(index / 12, index % 12 + 1)
  }

  /** Calendar months added, with the day clamped to the month it lands in. */
  function AddMonths(i: Instant, months: int): (r: Instant)
    requires Valid(i) && MonthIndex(i) + months >= 0
    ensures Valid(r) && MonthIndex(r) == MonthIndex(i) + months && r.time == i.time
    ensures r.day == if i.day <= LengthOf(MonthIndex(r)) then i.day else LengthOf(MonthIndex(r))
  {
    var zeroBased := i.month - 1 + months;
    var year, month := i.year + zeroBased / 12, zeroBased % 12 + 1;
    var last := MonthLength(year, month);
    Instant(year, month, if i.day < last then i.day else last, i.time)
  }

  const MIN_YEAR := 1
  const MAX_YEAR := 9999

  datatype CalendarError = YearOutOfRange

  /** The instants a datetime can hold. */
  predicate Representable(i: Instant) {
    Valid(i) && MIN_YEAR <= i.year <= MAX_YEAR
  }

  /** Month addition on datetimes, which fails outside the years they can hold. */
  function TryAddMonths(i: Instant, months: int): (r: Result<Instant, CalendarError>)
    requires Representable(i)
    ensures r.Success? <==> MIN_YEAR * 12 <= MonthIndex(i) + months < (MAX_YEAR + 1) * 12
    ensures r.Success? ==> Representable(r.value) && r.value == AddMonths(i, months)
  {
    var year := i.year + (i.month - 1 + months) / 12;
    if year < MIN_YEAR || year > MAX_YEAR then Failure(YearOutOfRange) else Success(AddMonths(i, months))
  }

  /** Going forward and back loses days exactly when the next month is too short. */
  lemma AddThenSubtract(i: Instant)
    requires Valid(i)
    ensures AddMonths(AddMonths(i, 1), -1) == i <==> i.day <= LengthOf(MonthIndex(i) + 1)
  {
  }

  /** The `YYYY-MM` bucket of a period that starts at `i`. */
  function Label(i: Instant): string
    requires Valid(i)
  {
    Decimal.Padded(i.year, 4) + "-" + Decimal.Padded(i.month, 2)
  }

  /** Two instants share a label exactly when they fall in the same calendar month. */
  lemma LabelIsMonth(a: Instant, b: Instant)
    requires Valid(a) && Valid(b)
    ensures Label(a) == Label(b) <==> MonthIndex(a) == MonthIndex(b)
  {
    if Label(a) == Label(b) {
      Text.FirstField(Decimal.Padded(a.year, 4), '-', Decimal.Padded(a.month, 2), Decimal.Padded(b.year, 4), Decimal.Padded(b.month, 2));
      Decimal.ParsePadded(a.year, 4);
      Decimal.ParsePadded(b.year, 4);
      Decimal.ParsePadded(a.month, 2);
      Decimal.ParsePadded(b.month, 2);
    }
  }

  /** The label read back: four digits of year and two of month, as the label check demands. */
  function ParseLabel(text: string): Option<(nat, nat)> {
    if |text| == 7 && text[4] == '-' && Decimal.AllDigits(text[..4]) && Decimal.AllDigits(text[5..]) then
      var year, month := Decimal.ParseDigits(text[..4]), Decimal.ParseDigits(text[5..]);
      if 1 <= month <= 12 then Some((year, month)) else None
    else None
  }

  /** Every label of a datetime passes that check and reads back as its own year and month. */
  lemma LabelReadsBack(i: Instant)
    requires Representable(i)
    ensures ParseLabel(Label(i)) == Some((i.year, i.month))
  {
    assert Decimal.PowerOfTen(2) == 100;
    assert Decimal.PowerOfTen(4) == 10_000;
    Decimal.PaddedFits(i.year, 4);
    Decimal.PaddedFits(i.month, 2);
    Decimal.ParsePadded(i.year, 4);
    Decimal.ParsePadded(i.month, 2);
    assert Label(i)[..4] == Decimal.Padded(i.year, 4) && Label(i)[5..] == Decimal.Padded(i.month, 2);
  }

  // ---------------------------------------------------------------- the calendar against counted days

  const COMMON_YEAR: seq<nat> := [31, 28, 31, 30, 31, 30, 31, 31, 30, 31, 30, 31]

  lemma MonthLengths(year: nat, month: nat)
    requires 1 <= month <= 12
    ensures MonthLength(year, month) == COMMON_YEAR[month - 1] + if month == 2 && IsLeap(year) then 1 else 0
  {
  }

  function LeapYearsBefore(year: nat): nat {
    if year == 0 then 0 else LeapYearsBefore(year - 1) + if IsLeap(year - 1) then 1 else 0
  }

  /** Every fourth year, less every hundredth, plus every four-hundredth. */
  lemma {:induction false} LeapYearsCounted(year: nat)
    ensures LeapYearsBefore(year) == (year + 3) / 4 - (year + 99) / 100 + (year + 399) / 400
  {
    if year > 0 {
      LeapYearsCounted(year - 1);
      MultiplesOf4(year - 1);
      MultiplesOf100(year - 1);
      MultiplesOf400(year - 1);
    }
  }

  lemma MultiplesOf4(year: nat)
    ensures (year + 4) / 4 == (year + 3) / 4 + if year % 4 == 0 then 1 else 0
  {
    var q, r := year / 4, year % 4;
    assert year == 4 * q + r;
    assert year + 3 == 4 * (if r == 0 then q else q + 1) + (if r == 0 then 3 else r - 1);
  }

  lemma MultiplesOf100(year: nat)
    ensures (year + 100) / 100 == (year + 99) / 100 + if year % 100 == 0 then 1 else 0
    ensures year % 100 == 0 ==> year % 4 == 0
  {
    var q, r := year / 100, year % 100;
    assert year == 100 * q + r;
    assert year + 99 == 100 * (if r == 0 then q else q + 1) + (if r == 0 then 99 else r - 1);
    assert r == 0 ==> year == 4 * (25 * q);
  }

  lemma MultiplesOf400(year: nat)
    ensures (year + 400) / 400 == (year + 399) / 400 + if year % 400 == 0 then 1 else 0
    ensures year % 400 == 0 ==> year % 100 == 0
  {
    var q, r := year / 400, year % 400;
    assert year == 400 * q + r;
    assert year + 399 == 400 * (if r == 0 then q else q + 1) + (if r == 0 then 399 else r - 1);
    assert r == 0 ==> year == 100 * (4 * q);
  }

  /** Days in the months before a month. */
  function DaysBefore(index: nat): nat {
    if index == 0 then 0 else DaysBefore(index - 1) + LengthOf(index - 1)
  }

  function DaysInFirst(year: nat, months: nat): nat
    requires months <= 12
  {
    if months == 0 then 0 else DaysInFirst(year, months - 1) + MonthLength(year, months)
  }

  lemma LengthInYear(year: nat, month: nat)
    requires 1 <= month <= 12
    ensures LengthOf(12 * year + (month - 1)) == MonthLength(year, month)
  {
  }

  lemma DaysBeforeNext(index: nat)
    ensures DaysBefore(index + 1) == DaysBefore(index) + LengthOf(index)
  {
  }

  lemma {:induction false} DaysWithin(year: nat, start: nat, months: nat)
    requires months <= 12 && start == 12 * year
    ensures DaysBefore(start + months) == DaysBefore(start) + DaysInFirst(year, months)
  {
    if months > 0 {
      DaysWithin(year, start, months - 1);
      LengthInYear(year, months);
      DaysBeforeNext(start + (months - 1));
      assert DaysInFirst(year, months) == DaysInFirst(year, months - 1) + MonthLength(year, months);
    }
  }

  lemma DaysOfYear(year: nat)
    ensures DaysInFirst(year, 12) == 365 + if IsLeap(year) then 1 else 0
  {
    var leap := if IsLeap(year) then 1 else 0;
    assert DaysInFirst(year, 1) == 31;
    assert DaysInFirst(year, 2) == 59 + leap;
    assert DaysInFirst(year, 4) == 120 + leap;
    assert DaysInFirst(year, 6) == 181 + leap;
    assert DaysInFirst(year, 8) == 243 + leap;
    assert DaysInFirst(year, 10) == 304 + leap;
  }

  /** The days before a year are 365 for each year and one more for each leap year. */
  lemma {:induction false} DaysBeforeYear(year: nat)
    ensures DaysBefore(12 * year) == 365 * year + LeapYearsBefore(year)
  {
    if year > 0 {
      DaysBeforeYear(year - 1);
      DaysWithin(year - 1, 12 * (year - 1), 12);
      DaysOfYear(year - 1);
      assert 12 * (year - 1) + 12 == 12 * year;
    }
  }

  /** So four hundred years, wherever they begin, have 146097 days. */
  lemma FourCenturies(year: nat)
    ensures DaysBefore(12 * (year + 400)) - DaysBefore(12 * year) == 146_097
  {
    DaysBeforeYear(year);
    DaysBeforeYear(year + 400);
    LeapYearsCounted(year);
    LeapYearsCounted(year + 400);
    CenturiesOn(year);
  }

  lemma CenturiesOn(year: nat)
    ensures (year + 400 + 3) / 4 == (year + 3) / 4 + 100
    ensures (year + 400 + 99) / 100 == (year + 99) / 100 + 4
    ensures (year + 400 + 399) / 400 == (year + 399) / 400 + 1
  {
  }

  /** Microseconds since the calendar began. */
  function Elapsed(i: Instant): int
    requires Valid(i)
  {
    (DaysBefore(MonthIndex(i)) + i.day - 1) * MICROSECONDS_PER_DAY + i.time
  }

  lemma {:induction false} DaysAscend(a: nat, b: nat)
    requires a < b
    ensures DaysBefore(a) + LengthOf(a) <= DaysBefore(b)
  {
    if a + 1 < b {
      DaysAscend(a, b - 1);
    }
  }

  lemma ValidDay(i: Instant)
    requires Valid(i)
    ensures i.day <= LengthOf(MonthIndex(i))
    ensures MonthIndex(i) / 12 == i.year && MonthIndex(i) % 12 + 1 == i.month
  {
  }

  /** Comparing year, month, day and time in turn is comparing points in time. */
  lemma BeforeIsEarlier(a: Instant, b: Instant)
    requires Valid(a) && Valid(b)
    ensures Before(a, b) <==> Elapsed(a) < Elapsed(b)
  {
    ValidDay(a);
    ValidDay(b);
    var m, n := MonthIndex(a), MonthIndex(b);
    if m < n {
      DaysAscend(m, n);
    } else if n < m {
      DaysAscend(n, m);
    }
  }
}
