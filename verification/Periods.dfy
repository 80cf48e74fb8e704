/** Which billing period a moment belongs to. */
module Periods {
  import opened Wrappers
  import opened Calendar

  /** A half-open interval and the label its usage is filed under. */
  datatype BillingPeriod = BillingPeriod(bucket: string, start: Instant, end: Instant)

  ghost predicate WellFormed(p: BillingPeriod) {
    Valid(p.start) && Valid(p.end) && Before(p.start, p.end) && p.bucket == Label(p.start)
  }

  predicate Contains(p: BillingPeriod, moment: Instant) {
    !Before(moment, p.start) && Before(moment, p.end)
  }

  /** The bounds a subscription row may or may not carry. */
  datatype Subscription = Subscription(
    currentStart: Option<Instant>,
    currentEnd: Option<Instant>,
    trialStart: Option<Instant>,
    createdAt: Option<Instant>)

  ghost predicate ValidRow(s: Subscription) {
    && (s.currentStart.Some? ==> Valid(s.currentStart.value))
    && (s.currentEnd.Some? ==> Valid(s.currentEnd.value))
    && (s.trialStart.Some? ==> Valid(s.trialStart.value))
    && (s.createdAt.Some? ==> Valid(s.createdAt.value))
  }

  /** The calendar month containing a moment. */
  function CalendarPeriod(moment: Instant): (p: BillingPeriod)
    requires Valid(moment)
    ensures WellFormed(p) && Contains(p, moment)
  {
    var start := moment.(day := 1, time := 0);
    BillingPeriod(Label(start), start, AddMonths(start, 1))
  }

  /** December 9999. */
  predicate InLastMonth(i: Instant)
    requires Valid(i)
  {
    MonthIndex(i) == MAX_YEAR * 12 + 11
  }

  /** On datetimes the last representable month has no calendar period, because its end cannot be written down. */
  function TryCalendarPeriod(moment: Instant): (r: Result<BillingPeriod, CalendarError>)
    requires Representable(moment)
    ensures r == if InLastMonth(moment) then Failure(YearOutOfRange) else Success(CalendarPeriod(moment))
  {
    var start := moment.(day := 1, time := 0);
    match TryAddMonths(start, 1)
    case Failure(error) => Failure(error)
    case Success(end) => Success(BillingPeriod(Label(start), start, end))
  }

  /** It holds exactly the moments of that month. */
  lemma CalendarPeriodIsTheMonth(moment: Instant, other: Instant)
    requires Valid(moment) && Valid(other)
    ensures Contains(CalendarPeriod(moment), other) <==> MonthIndex(other) == MonthIndex(moment)
  {
  }

  // ---------------------------------------------------------------- the walk from an anchor

  /** The start of the k-th period: each start is one clamped month after the one before it. */
  function WalkStart(anchor: Instant, k: nat): (r: Instant)
    requires Valid(anchor)
    ensures Valid(r) && MonthIndex(r) == MonthIndex(anchor) + k && r.time == anchor.time
  {
    if k == 0 then anchor else AddMonths(WalkStart(anchor, k - 1), 1)
  }

  function WalkPeriod(anchor: Instant, k: nat): BillingPeriod
    requires Valid(anchor)
  {
    BillingPeriod(Label(WalkStart(anchor, k)), WalkStart(anchor, k), WalkStart(anchor, k + 1))
  }

  function Min(a: nat, b: nat): nat {
    if a < b then a else b
  }

  /** The shortest of the `k` months after month `index`, or 31. */
  function Shortest(index: nat, k: nat): nat {
    if k == 0 then 31 else Min(Shortest(index, k - 1), LengthOf(index + k))
  }

  lemma WalkDayStep(anchor: Instant, k: nat)
    requires Valid(anchor) && k > 0
    ensures WalkStart(anchor, k).day == Min(WalkStart(anchor, k - 1).day, LengthOf(MonthIndex(anchor) + k))
  {
  }

  /** The k-th day is the least of the anchor's day and the lengths of the months entered so far. */
  lemma {:induction false} WalkDay(anchor: Instant, k: nat)
    requires Valid(anchor)
    ensures WalkStart(anchor, k).day == Min(anchor.day, Shortest(MonthIndex(anchor), k))
  {
    if k == 0 {
      DayAtMost31(anchor);
    } else {
      WalkDay(anchor, k - 1);
      WalkDayStep(anchor, k);
      MinAssociates(anchor.day, Shortest(MonthIndex(anchor), k - 1), LengthOf(MonthIndex(anchor) + k));
    }
  }

  lemma DayAtMost31(i: Instant)
    requires Valid(i)
    ensures i.day <= 31
  {
  }

  lemma MinAssociates(a: nat, b: nat, c: nat)
    ensures Min(Min(a, b), c) == Min(a, Min(b, c))
  {
  }

  /** The walk is plain month addition exactly when no month entered was shorter than the day it should land on. */
  lemma {:induction false} WalkIsAddition(anchor: Instant, k: nat)
    requires Valid(anchor)
    ensures WalkStart(anchor, k) == AddMonths(anchor, k)
       <==> forall m | MonthIndex(anchor) < m <= MonthIndex(anchor) + k ::
              Min(anchor.day, LengthOf(MonthIndex(anchor) + k)) <= LengthOf(m)
  {
    WalkDay(anchor, k);
    ShortestBounds(MonthIndex(anchor), k, Min(anchor.day, LengthOf(MonthIndex(anchor) + k)));
    MonthDetermined(WalkStart(anchor, k), AddMonths(anchor, k));
  }

  lemma MonthDetermined(a: Instant, b: Instant)
    requires Valid(a) && Valid(b) && MonthIndex(a) == MonthIndex(b)
    ensures a.year == b.year && a.month == b.month
  {
  }

  lemma {:induction false} ShortestBounds(index: nat, k: nat, bound: nat)
    requires bound <= 31
    ensures bound <= Shortest(index, k) <==> forall m | index < m <= index + k :: bound <= LengthOf(m)
  {
    if k > 0 {
      ShortestBounds(index, k - 1, bound);
    }
  }

  /** From a day every month has, the walk never drifts. */
  lemma WalkFromEarlyDay(anchor: Instant, k: nat)
    requires Valid(anchor) && anchor.day <= 28
    ensures WalkStart(anchor, k) == AddMonths(anchor, k)
  {
    WalkIsAddition(anchor, k);
  }

  /** From 31 January it does: the third period starts on 28 March, not on the 31st. */
  lemma WalkFromMonthEndDrifts()
    ensures WalkStart(Instant(2026, 1, 31, 0), 2) == Instant(2026, 3, 28, 0)
    ensures AddMonths(Instant(2026, 1, 31, 0), 2) == Instant(2026, 3, 31, 0)
  {
    assert WalkStart(Instant(2026, 1, 31, 0), 1) == Instant(2026, 2, 28, 0);
  }

  /** Months elapsed, computed directly from the two dates: the index of the walk period holding `moment`. */
  function StepsTo(anchor: Instant, moment: Instant): (k: nat)
    requires Valid(anchor) && Valid(moment) && !Before(moment, anchor)
  {
    var d := MonthIndex(moment) - MonthIndex(anchor);
    var day := Min(anchor.day, Shortest(MonthIndex(anchor), d));
    if moment.day < day || (moment.day == day && moment.time < anchor.time) then d - 1 else d
  }

  lemma BeforeByMonth(a: Instant, b: Instant)
    requires Valid(a) && Valid(b)
    ensures Before(a, b) <==>
              || MonthIndex(a) < MonthIndex(b)
              || (MonthIndex(a) == MonthIndex(b) && (a.day < b.day || (a.day == b.day && a.time < b.time)))
  {
  }

  lemma WalkPeriodWellFormed(anchor: Instant, k: nat)
    requires Valid(anchor)
    ensures WellFormed(WalkPeriod(anchor, k))
  {
  }

  lemma StartedBy(anchor: Instant, moment: Instant, k: nat)
    requires Valid(anchor) && Valid(moment) && !Before(moment, anchor)
    ensures !Before(moment, WalkStart(anchor, k)) <==> k <= StepsTo(anchor, moment)
  {
    var start := WalkStart(anchor, k);
    BeforeByMonth(moment, start);
    if MonthIndex(anchor) + k == MonthIndex(moment) {
      WalkDay(anchor, k);
    }
  }

  /** Exactly one period of the walk holds a moment, and it is the directly computed one. */
  lemma WalkFinds(anchor: Instant, moment: Instant, k: nat)
    requires Valid(anchor) && Valid(moment) && !Before(moment, anchor)
    ensures Contains(WalkPeriod(anchor, k), moment) <==> k == StepsTo(anchor, moment)
    ensures !Before(moment, WalkStart(anchor, k)) <==> k <= StepsTo(anchor, moment)
  {
    StartedBy(anchor, moment, k);
    StartedBy(anchor, moment, k + 1);
  }

  // ---------------------------------------------------------------- projection

  const MAX_STEPS := 600

  /** What projecting from an anchor gives, without walking. */
  function Projected(anchor: Instant, moment: Instant): BillingPeriod
    requires Valid(anchor) && Valid(moment)
  {
    if Before(moment, anchor) || StepsTo(anchor, moment) >= MAX_STEPS then CalendarPeriod(moment)
    else WalkPeriod(anchor, StepsTo(anchor, moment))
  }

  /**
   The dates on which projecting fails: the anchor is in December 9999, or the moment is and no period begun in
   November is open any more.
   */
  predicate WalkOverflows(anchor: Instant, moment: Instant)
    requires Representable(anchor) && Representable(moment)
  {
    || InLastMonth(anchor)
    || (InLastMonth(moment)
        && var d := MonthIndex(moment) - MonthIndex(anchor);
           d > MAX_STEPS || !Before(moment, WalkStart(anchor, d)))
  }

  /** The walk has passed `k` period starts without finding the moment. */
  ghost predicate Passed(anchor: Instant, moment: Instant, k: nat)
    requires Representable(anchor) && Representable(moment)
  {
    k > 0 ==> !Before(moment, WalkStart(anchor, k)) && !Before(moment, anchor) && !InLastMonth(anchor)
  }

  lemma StepFails(anchor: Instant, moment: Instant, k: nat)
    requires Representable(anchor) && Representable(moment) && Passed(anchor, moment, k)
    requires InLastMonth(WalkStart(anchor, k))
    ensures WalkOverflows(anchor, moment)
  {
    BeforeByMonth(moment, WalkStart(anchor, k));
  }

  lemma StepFindsOrPasses(anchor: Instant, moment: Instant, k: nat)
    requires Representable(anchor) && Representable(moment) && Passed(anchor, moment, k) && k < MAX_STEPS
    requires Representable(WalkStart(anchor, k + 1))
    ensures Contains(WalkPeriod(anchor, k), moment) ==>
              Projected(anchor, moment) == WalkPeriod(anchor, k) && !WalkOverflows(anchor, moment)
    ensures !Contains(WalkPeriod(anchor, k), moment) && !Before(moment, WalkStart(anchor, k)) ==> Passed(anchor, moment, k + 1)
    ensures Before(moment, WalkStart(anchor, k)) ==> Before(moment, anchor) && !InLastMonth(anchor)
  {
    if Before(moment, anchor) {
      NotBeforeAnchor(anchor, moment, k);
    } else if Contains(WalkPeriod(anchor, k), moment) {
      WalkFinds(anchor, moment, k);
      BeforeByMonth(moment, WalkStart(anchor, k + 1));
    }
  }

  lemma EarlyMomentsNeverFail(anchor: Instant, moment: Instant)
    requires Representable(anchor) && Representable(moment) && Before(moment, anchor) && !InLastMonth(anchor)
    ensures Projected(anchor, moment) == CalendarPeriod(moment)
    ensures !InLastMonth(moment) && !WalkOverflows(anchor, moment)
  {
    BeforeByMonth(moment, anchor);
  }

  lemma AllStepsPassed(anchor: Instant, moment: Instant)
    requires Representable(anchor) && Representable(moment) && Passed(anchor, moment, MAX_STEPS)
    requires Representable(WalkStart(anchor, MAX_STEPS))
    ensures Projected(anchor, moment) == CalendarPeriod(moment)
    ensures WalkOverflows(anchor, moment) <==> InLastMonth(moment)
  {
    WalkFinds(anchor, moment, MAX_STEPS);
    BeforeByMonth(moment, WalkStart(anchor, MAX_STEPS));
  }

  /** One monthly period after another, starting at the anchor and giving up after `MAX_STEPS`. */
  method Project(anchor: Instant, moment: Instant) returns (r: Result<BillingPeriod, CalendarError>)
    requires Representable(anchor) && Representable(moment)
    ensures r == if WalkOverflows(anchor, moment) then Failure(YearOutOfRange) else Success(Projected(anchor, moment))
  {
    var start := anchor;
    for k := 0 to MAX_STEPS
      invariant Representable(start) && start == WalkStart(anchor, k) && Passed(anchor, moment, k)
    {
      var next := TryAddMonths(start, 1);
      if next.Failure? {
        StepFails(anchor, moment, k);
        return Failure(next.error);
      }
      var end := next.value;
      assert WalkPeriod(anchor, k) == BillingPeriod(Label(start), start, end);
      StepFindsOrPasses(anchor, moment, k);
      if !Before(moment, start) && Before(moment, end) {
        return Success(BillingPeriod(Label(start), start, end));
      }
      if Before(moment, start) {
        EarlyMomentsNeverFail(anchor, moment);
        return TryCalendarPeriod(moment);
      }
      start := end;
    }
    AllStepsPassed(anchor, moment);
    return TryCalendarPeriod(moment);
  }

  /** The anchor a projection falls back to. */
  function AnchorOf(s: Subscription): Option<Instant> {
    if s.currentStart.Some? then s.currentStart else if s.trialStart.Some? then s.trialStart else s.createdAt
  }

  function SubscriptionPeriod(s: Subscription, moment: Instant): BillingPeriod
    requires ValidRow(s) && Valid(moment)
  {
    if s.currentStart.Some? && s.currentEnd.Some? && Before(s.currentStart.value, s.currentEnd.value)
       && !Before(moment, s.currentStart.value) && Before(moment, s.currentEnd.value)
    then
      BillingPeriod(Label(s.currentStart.value), s.currentStart.value, s.currentEnd.value)
    else if s.currentStart.Some? && s.currentEnd.Some? && Before(s.currentStart.value, s.currentEnd.value)
            && !Before(moment, s.currentEnd.value)
    then Projected(s.currentStart.value, moment)
    else if AnchorOf(s).None? then CalendarPeriod(moment)
    else Projected(AnchorOf(s).value, moment)
  }

  /** Where usage at a moment is filed, with or without a subscription. */
  function PeriodFor(s: Option<Subscription>, moment: Instant): BillingPeriod
    requires (s.Some? ==> ValidRow(s.value)) && Valid(moment)
  {
    if s.None? then CalendarPeriod(moment) else SubscriptionPeriod(s.value, moment)
  }

  /** The provider's own bounds hold the moment. */
  predicate ProviderHolds(s: Subscription, moment: Instant) {
    s.currentStart.Some? && s.currentEnd.Some?
    && !Before(moment, s.currentStart.value) && Before(moment, s.currentEnd.value)
  }

  ghost predicate RepresentableRow(s: Subscription) {
    && (s.currentStart.Some? ==> Representable(s.currentStart.value))
    && (s.currentEnd.Some? ==> Representable(s.currentEnd.value))
    && (s.trialStart.Some? ==> Representable(s.trialStart.value))
    && (s.createdAt.Some? ==> Representable(s.createdAt.value))
  }

  /** The rows and moments for which there is an error instead of a period. */
  predicate PeriodOverflows(s: Option<Subscription>, moment: Instant)
    requires (s.Some? ==> RepresentableRow(s.value)) && Representable(moment)
  {
    if s.None? then InLastMonth(moment)
    else if ProviderHolds(s.value, moment) then false
    else if AnchorOf(s.value).None? then InLastMonth(moment)
    else WalkOverflows(AnchorOf(s.value).value, moment)
  }

  /** Off the provider's bounds, only the anchor counts. */
  lemma AnchorDecides(s: Subscription, moment: Instant)
    requires ValidRow(s) && Valid(moment)
    ensures ProviderHolds(s, moment) ==>
              Before(s.currentStart.value, s.currentEnd.value)
              && SubscriptionPeriod(s, moment) == BillingPeriod(Label(s.currentStart.value), s.currentStart.value, s.currentEnd.value)
    ensures !ProviderHolds(s, moment) ==>
              SubscriptionPeriod(s, moment)
              == if AnchorOf(s).None? then CalendarPeriod(moment) else Projected(AnchorOf(s).value, moment)
  {
  }

  /** The provider's own bounds, when they hold the moment, are the answer whatever else the row says. */
  lemma ProviderDecides(s: Subscription, moment: Instant)
    requires ValidRow(s) && Valid(moment) && s.currentStart.Some? && s.currentEnd.Some?
    requires !Before(moment, s.currentStart.value) && Before(moment, s.currentEnd.value)
    ensures PeriodFor(Some(s), moment).start == s.currentStart.value && PeriodFor(Some(s), moment).end == s.currentEnd.value
  {
    AnchorDecides(s, moment);
  }

  /** Otherwise one date decides: the provider's start, or without one the trial's, or without one the row's own. */
  lemma RowDateDecides(s: Subscription, moment: Instant)
    requires ValidRow(s) && Valid(moment)
    requires s.currentStart.Some? && s.currentEnd.Some? ==>
               Before(moment, s.currentStart.value) || !Before(moment, s.currentEnd.value)
    ensures s.currentStart.Some? ==> PeriodFor(Some(s), moment) == Projected(s.currentStart.value, moment)
    ensures s.currentStart.None? && s.trialStart.Some? ==> PeriodFor(Some(s), moment) == Projected(s.trialStart.value, moment)
    ensures s.currentStart.None? && s.trialStart.None? && s.createdAt.Some? ==>
              PeriodFor(Some(s), moment) == Projected(s.createdAt.value, moment)
    ensures s.currentStart.None? && s.trialStart.None? && s.createdAt.None? ==>
              PeriodFor(Some(s), moment) == PeriodFor(None, moment) == CalendarPeriod(moment)
  {
    AnchorDecides(s, moment);
  }

  /** And that date alone decides whether there is an error. */
  lemma RowDateOverflows(s: Subscription, moment: Instant)
    requires RepresentableRow(s) && Representable(moment)
    requires s.currentStart.Some? && s.currentEnd.Some? ==>
               Before(moment, s.currentStart.value) || !Before(moment, s.currentEnd.value)
    ensures s.currentStart.Some? ==> (PeriodOverflows(Some(s), moment) <==> WalkOverflows(s.currentStart.value, moment))
    ensures s.currentStart.None? && s.trialStart.Some? ==>
              (PeriodOverflows(Some(s), moment) <==> WalkOverflows(s.trialStart.value, moment))
    ensures s.currentStart.None? && s.trialStart.None? && s.createdAt.Some? ==>
              (PeriodOverflows(Some(s), moment) <==> WalkOverflows(s.createdAt.value, moment))
    ensures s.currentStart.None? && s.trialStart.None? && s.createdAt.None? ==>
              (PeriodOverflows(Some(s), moment) <==> moment.year == 9999 && moment.month == 12)
  {
  }

  /** From a date on, the answer is the walk's period that holds the moment, for six hundred months and no longer. */
  lemma ProjectionByDate(anchor: Instant, moment: Instant, k: nat)
    requires Valid(anchor) && Valid(moment) && Contains(WalkPeriod(anchor, k), moment)
    ensures Projected(anchor, moment) == if k < 600 then WalkPeriod(anchor, k) else CalendarPeriod(moment)
  {
    WalkTiles(anchor, k, k, moment);
    WalkFinds(anchor, moment, k);
  }

  /** A tenant on a trial is billed from the trial's start, not from the row's creation. */
  lemma TrialComesFirst()
    ensures
      var row := Subscription(None, None, Some(Instant(2026, 1, 15, 0)), Some(Instant(2026, 1, 3, 0)));
      var p := PeriodFor(Some(row), Instant(2026, 2, 20, 0));
      p.start == Instant(2026, 2, 15, 0) && p.end == Instant(2026, 3, 15, 0)
  {
    var anchor, moment := Instant(2026, 1, 15, 0), Instant(2026, 2, 20, 0);
    var row := Subscription(None, None, Some(anchor), Some(Instant(2026, 1, 3, 0)));
    assert WalkStart(anchor, 1) == Instant(2026, 2, 15, 0);
    assert WalkStart(anchor, 2) == Instant(2026, 3, 15, 0);
    ProjectionByDate(anchor, moment, 1);
    RowDateDecides(row, moment);
  }

  method ResolvePeriod(s: Option<Subscription>, moment: Instant) returns (r: Result<BillingPeriod, CalendarError>)
    requires (s.Some? ==> RepresentableRow(s.value)) && Representable(moment)
    ensures r == if PeriodOverflows(s, moment) then Failure(YearOutOfRange) else Success(PeriodFor(s, moment))
    ensures r.Success? ==> WellFormed(r.value) && Contains(r.value, moment)
  {
    PeriodForContains(s, moment);
    if s.None? {
      return TryCalendarPeriod(moment);
    }
    var row := s.value;
    AnchorDecides(row, moment);
    if row.currentStart.Some? && row.currentEnd.Some? {
      var start, end := row.currentStart.value, row.currentEnd.value;
      if Before(start, end) && !Before(moment, start) && Before(moment, end) {
        return Success(BillingPeriod(Label(start), start, end));
      }
      if Before(start, end) && !Before(moment, end) {
        r := Project(start, moment);
        return;
      }
    }
    var anchor := row.currentStart;
    if anchor.None? {
      anchor := row.trialStart;
    }
    if anchor.None? {
      anchor := row.createdAt;
    }
    if anchor.None? {
      return TryCalendarPeriod(moment);
    }
    r := Project(anchor.value, moment);
  }

  lemma ProjectedContains(anchor: Instant, moment: Instant)
    requires Valid(anchor) && Valid(moment)
    ensures WellFormed(Projected(anchor, moment)) && Contains(Projected(anchor, moment), moment)
  {
    if !Before(moment, anchor) {
      WalkFinds(anchor, moment, StepsTo(anchor, moment));
      WalkPeriodWellFormed(anchor, StepsTo(anchor, moment));
    }
  }

  /** Whatever bounds the row has (present, absent, stale, inverted, future), the answer is a period holding the moment. */
  lemma PeriodForContains(s: Option<Subscription>, moment: Instant)
    requires (s.Some? ==> ValidRow(s.value)) && Valid(moment)
    ensures WellFormed(PeriodFor(s, moment)) && Contains(PeriodFor(s, moment), moment)
  {
    if s.Some? {
      if s.value.currentStart.Some? {
        ProjectedContains(s.value.currentStart.value, moment);
      }
      if AnchorOf(s.value).Some? {
        ProjectedContains(AnchorOf(s.value).value, moment);
      }
    }
  }

  /** The periods of one walk tile the time from the anchor on: contiguous, one month apart, disjoint. */
  lemma WalkTiles(anchor: Instant, j: nat, k: nat, moment: Instant)
    requires Valid(anchor) && Valid(moment)
    ensures WalkPeriod(anchor, k).end == WalkPeriod(anchor, k + 1).start
    ensures MonthIndex(WalkPeriod(anchor, k).end) == MonthIndex(WalkPeriod(anchor, k).start) + 1
    ensures Contains(WalkPeriod(anchor, j), moment) && Contains(WalkPeriod(anchor, k), moment) ==> j == k
    ensures !Before(moment, anchor) <==> exists n: nat :: Contains(WalkPeriod(anchor, n), moment)
  {
    if !Before(moment, anchor) {
      WalkFinds(anchor, moment, j);
      WalkFinds(anchor, moment, k);
      WalkFinds(anchor, moment, StepsTo(anchor, moment));
    } else {
      forall n: nat
        ensures !Contains(WalkPeriod(anchor, n), moment)
      {
        NotBeforeAnchor(anchor, moment, n);
      }
    }
  }

  lemma NotBeforeAnchor(anchor: Instant, moment: Instant, n: nat)
    requires Valid(anchor) && Valid(moment) && Before(moment, anchor)
    ensures Before(moment, WalkStart(anchor, n))
  {
    BeforeByMonth(moment, anchor);
    BeforeByMonth(moment, WalkStart(anchor, n));
  }

  /** Along one anchor, two moments share a label exactly when they share a period. */
  lemma SharedLabelIsSharedPeriod(anchor: Instant, m1: Instant, m2: Instant)
    requires Valid(anchor) && Valid(m1) && Valid(m2) && !Before(m1, anchor) && !Before(m2, anchor)
    requires StepsTo(anchor, m1) < MAX_STEPS && StepsTo(anchor, m2) < MAX_STEPS
    ensures Projected(anchor, m1).bucket == Projected(anchor, m2).bucket <==> Projected(anchor, m1) == Projected(anchor, m2)
    ensures Projected(anchor, m1) == Projected(anchor, m2) <==> StepsTo(anchor, m1) == StepsTo(anchor, m2)
  {
    LabelIsMonth(WalkStart(anchor, StepsTo(anchor, m1)), WalkStart(anchor, StepsTo(anchor, m2)));
  }

  /** The index of the period, read off the two dates of an early-day anchor and a moment. */
  ghost predicate StepsBetween(anchor: Instant, moment: Instant, k: nat)
    requires Valid(anchor) && Valid(moment)
  {
    var d := MonthIndex(moment) - MonthIndex(anchor);
    k == if moment.day < anchor.day || (moment.day == anchor.day && moment.time < anchor.time) then d - 1 else d
  }

  lemma EarlyAnchorSteps(anchor: Instant, moment: Instant)
    requires Valid(anchor) && Valid(moment) && anchor.day <= 28 && !Before(moment, anchor)
    ensures StepsBetween(anchor, moment, StepsTo(anchor, moment))
  {
    ShortestBounds(MonthIndex(anchor), MonthIndex(moment) - MonthIndex(anchor), anchor.day);
  }

  lemma EarlyAnchorPeriod(anchor: Instant, moment: Instant, k: nat)
    requires Valid(anchor) && Valid(moment) && anchor.day <= 28 && !Before(moment, anchor) && k < MAX_STEPS
    requires StepsBetween(anchor, moment, k)
    ensures Projected(anchor, moment) == WalkPeriod(anchor, k)
  {
    EarlyAnchorSteps(anchor, moment);
  }

  /** From an early anchor day the period is month addition by the difference of the two dates. */
  lemma EarlyAnchorClosedForm(anchor: Instant, moment: Instant, k: nat)
    requires Valid(anchor) && Valid(moment) && anchor.day <= 28 && !Before(moment, anchor) && k < MAX_STEPS
    requires StepsBetween(anchor, moment, k)
    ensures Projected(anchor, moment).start == AddMonths(anchor, k)
    ensures Projected(anchor, moment).end == AddMonths(anchor, k + 1)
  {
    EarlyAnchorPeriod(anchor, moment, k);
    WalkFromEarlyDay(anchor, k);
    WalkFromEarlyDay(anchor, k + 1);
  }

  // ---------------------------------------------------------------- the period before

  function PreviousPeriod(p: BillingPeriod): (r: BillingPeriod)
    requires Valid(p.start) && MonthIndex(p.start) >= 1
    ensures WellFormed(r) && r.end == p.start
  {
    var start := AddMonths(p.start, -1);
    BillingPeriod(Label(start), start, p.start)
  }

  /** On datetimes only the first representable month has no period before it. */
  function TryPreviousPeriod(p: BillingPeriod): (r: Result<BillingPeriod, CalendarError>)
    requires Representable(p.start)
    ensures r == if p.start.year == MIN_YEAR && p.start.month == 1 then Failure(YearOutOfRange) else Success(PreviousPeriod(p))
  {
    match TryAddMonths(p.start, -1)
    case Failure(error) => Failure(error)
    case Success(start) => Success(BillingPeriod(Label(start), start, p.start))
  }

  /** The period before is determined by its start. */
  lemma PreviousByStart(q: BillingPeriod, start: Instant)
    requires Valid(q.start) && MonthIndex(q.start) >= 1 && Valid(start)
    ensures PreviousPeriod(q) == BillingPeriod(Label(start), start, q.start) <==> AddMonths(q.start, -1) == start
  {
  }

  /** `q` is the monthly period after `p`. */
  ghost predicate Follows(p: BillingPeriod, q: BillingPeriod) {
    Valid(p.start) && p.bucket == Label(p.start) && p.end == q.start == AddMonths(p.start, 1)
  }

  lemma WalkFollows(anchor: Instant, k: nat)
    requires Valid(anchor)
    ensures Follows(WalkPeriod(anchor, k), WalkPeriod(anchor, k + 1))
  {
  }

  /** It undoes a step, of a walk or any other, exactly when that step did not clamp the day. */
  lemma PreviousUndoesStep(p: BillingPeriod, q: BillingPeriod)
    requires Follows(p, q)
    ensures PreviousPeriod(q) == p <==> p.start.day <= LengthOf(MonthIndex(p.start) + 1)
  {
    AddThenSubtract(p.start);
    PreviousByStart(q, p.start);
  }

  /** Clamped or not, it is filed under the label of the walk's own previous period. */
  lemma PreviousKeepsLabel(anchor: Instant, k: nat)
    requires Valid(anchor)
    ensures PreviousPeriod(WalkPeriod(anchor, k + 1)).bucket == WalkPeriod(anchor, k).bucket
  {
    LabelIsMonth(AddMonths(WalkStart(anchor, k + 1), -1), WalkStart(anchor, k));
  }

  // ---------------------------------------------------------------- the last representable year

  /**
   Projecting fails exactly when its answer would end after the last representable instant, or when the first step
   from the anchor does, even for a moment before the anchor.
   */
  lemma OverflowsExactlyWhen(anchor: Instant, moment: Instant)
    requires Representable(anchor) && Representable(moment)
    ensures WalkOverflows(anchor, moment) <==> InLastMonth(anchor) || !Representable(Projected(anchor, moment).end)
    ensures !InLastMonth(anchor) && !InLastMonth(moment) ==> !WalkOverflows(anchor, moment)
  {
    if !InLastMonth(anchor) {
      if Before(moment, anchor) {
        EarlyMomentsNeverFail(anchor, moment);
        RepresentableByMonth(CalendarPeriod(moment).end);
      } else {
        FoundOverflowsExactlyWhen(anchor, moment, StepsTo(anchor, moment));
      }
    }
  }

  lemma RepresentableByMonth(i: Instant)
    requires Valid(i)
    ensures Representable(i) <==> MIN_YEAR * 12 <= MonthIndex(i) < (MAX_YEAR + 1) * 12
  {
  }

  lemma FoundOverflowsExactlyWhen(anchor: Instant, moment: Instant, k: nat)
    requires Representable(anchor) && Representable(moment) && !InLastMonth(anchor) && !Before(moment, anchor)
    requires k == StepsTo(anchor, moment)
    ensures WalkOverflows(anchor, moment) <==> !Representable(Projected(anchor, moment).end)
  {
    var n := if k < MAX_STEPS then k else MAX_STEPS;
    StartedBy(anchor, moment, n);
    BeforeByMonth(moment, WalkStart(anchor, n));
    RepresentableByMonth(WalkStart(anchor, n));
    if k >= MAX_STEPS {
      AllStepsPassed(anchor, moment);
      RepresentableByMonth(CalendarPeriod(moment).end);
    } else {
      WalkFinds(anchor, moment, k);
      RepresentableByMonth(WalkStart(anchor, k + 1));
      if Representable(WalkStart(anchor, k + 1)) {
        StepFindsOrPasses(anchor, moment, k);
      } else {
        StepFails(anchor, moment, k);
      }
    }
  }

  /** In the last December a period begun in November is still found; from its end on there is only the error. */
  lemma LastDecember(day: nat)
    requires 1 <= day <= 31
    ensures WalkOverflows(Instant(9999, 10, 15, 0), Instant(9999, 12, day, 0)) <==> day >= 15
  {
    var anchor := Instant(9999, 10, 15, 0);
    assert WalkStart(anchor, 1) == Instant(9999, 11, 15, 0);
    assert WalkStart(anchor, 2) == Instant(9999, 12, 15, 0);
  }
}
