/** Deciding before an expensive action whether a tenant may take it, and what that gate guarantees over time. */
module Entitlements {
  import opened Wrappers
  import opened Plans
  import opened Metering
  import opened Thresholds
  import opened Ledgers
  import opened Hooks

  datatype Status = Trialing | Active | PastDue | Canceling | Canceled | Incomplete | IncompleteExpired | Paused

  const ENTITLED: set<Status> := {Trialing, Active, Canceling, PastDue}

  /** The tenant's standing, looked up before a decision. */
  datatype Context = Context(
    tenant: TenantId,
    plan: Option<Plan>,
    subscription: Option<Status>,
    period: string,
    unlimited: bool)

  predicate IsEntitled(context: Context) {
    context.subscription.None? || context.subscription.value in ENTITLED
  }

  datatype Decision = Allow | Warn | AllowWithOverage | Deny

  datatype Entitlement = Entitlement(decision: Decision, limit: Option<int>, used: Option<int>)

  /** The gate's answer to a request for `additional` more of a metric. */
  function CheckMetric(events: seq<UsageEvent>, context: Context, metric: Metric, additional: int): Entitlement {
    if context.unlimited then Entitlement(Allow, None, None)
    else if !IsEntitled(context) then Entitlement(Deny, None, None)
    else if context.plan.None? then Entitlement(Allow, None, None)
    else
      var used := UsedQuantity(events, context.tenant, metric, context.period);
      var projected := used + Max(0, additional);
      var included := IncludedUnits(context.plan, metric);
      if included <= 0 then
        Entitlement(if context.plan.value.overageEnabled then AllowWithOverage else Deny, Some(0), Some(used))
      else if projected <= included then
        Entitlement(if PercentReaches(projected, included, WARNING_PERCENT) then Warn else Allow, Some(included), Some(projected))
      else
        Entitlement(if context.plan.value.overageEnabled then AllowWithOverage else Deny, Some(included), Some(projected))
  }

  const ESTIMATED_CALL_SECONDS := 120

  /** The dialer's gate. A missing context stands for a lookup that failed, which fails open. */
  function MayPlaceOutboundCall(events: seq<UsageEvent>, enforce: bool, context: Option<Context>): bool {
    !enforce || context.None? || CheckMetric(events, context.value, VoiceMinute, ESTIMATED_CALL_SECONDS).decision != Deny
  }

  /** In service: no subscription, or one that is on trial, active, past due, or running out its last period. */
  lemma EntitledExactlyWhen(context: Context)
    ensures IsEntitled(context) <==>
              context.subscription.None? || context.subscription.value !in {Canceled, Incomplete, IncompleteExpired, Paused}
  {
    if context.subscription.Some? {
      match context.subscription.value
      case Trialing =>
      case Active =>
      case PastDue =>
      case Canceling =>
      case Canceled =>
      case Incomplete =>
      case IncompleteExpired =>
      case Paused =>
    }
  }

  /** Denied exactly when the subscription is not in service, or the plan forbids overage and this would need it. */
  lemma DeniedExactlyWhen(events: seq<UsageEvent>, context: Context, metric: Metric, additional: int)
    ensures
      var used := UsedQuantity(events, context.tenant, metric, context.period);
      CheckMetric(events, context, metric, additional).decision == Deny <==>
        && !context.unlimited
        && (|| (context.subscription.Some? && context.subscription.value !in ENTITLED)
            || (&& context.plan.Some? && !context.plan.value.overageEnabled
                && (IncludedUnits(context.plan, metric) <= 0 || used + Max(0, additional) > IncludedUnits(context.plan, metric))))
  {
  }

  /**
   The gate judges the recording it is asked about: with overage off, a request goes through exactly when recording it
   would stay within the allowance.
   */
  lemma GateForesees(events: seq<UsageEvent>, context: Context, r: UsageRequest)
    requires !context.unlimited && IsEntitled(context) && context.plan.Some? && !context.plan.value.overageEnabled
    requires IncludedUnits(context.plan, r.metric) > 0
    requires r.tenant == context.tenant && r.period == context.period && r.quantity > 0 && Find(events, r.tenant, r.key).None?
    ensures
      var allowed := CheckMetric(events, context, r.metric, r.quantity).decision != Deny;
      var within := UsedQuantity(Record(events, r).0, r.tenant, r.metric, r.period) <= IncludedUnits(context.plan, r.metric);
      && (allowed ==> within)
      && (SignedSum(events, r.tenant, r.metric, r.period) >= 0 ==> (within ==> allowed))
  {
    DeniedExactlyWhen(events, context, r.metric, r.quantity);
    RecordMovesItsBucket(events, r, r.tenant, r.metric, r.period);
  }

  /** How far a decision is from an unqualified yes. */
  function Severity(d: Decision): nat {
    match d
    case Allow => 0
    case Warn => 1
    case AllowWithOverage => 2
    case Deny => 3
  }

  /** In one context, more usage or a larger request is never judged more leniently. */
  lemma DecisionsAreMonotone(events: seq<UsageEvent>, events': seq<UsageEvent>, context: Context, metric: Metric, more: int, evenMore: int)
    requires UsedQuantity(events, context.tenant, metric, context.period) <= UsedQuantity(events', context.tenant, metric, context.period)
    requires more <= evenMore
    ensures Severity(CheckMetric(events, context, metric, more).decision)
         <= Severity(CheckMetric(events', context, metric, evenMore).decision)
  {
  }

  /** Usage beyond the allowance is allowed exactly on plans that meter it, and then always. */
  lemma OverageExactlyWhen(events: seq<UsageEvent>, context: Context, metric: Metric, additional: int)
    ensures
      var used := UsedQuantity(events, context.tenant, metric, context.period);
      CheckMetric(events, context, metric, additional).decision == AllowWithOverage <==>
        && !context.unlimited && IsEntitled(context) && context.plan.Some? && context.plan.value.overageEnabled
        && (IncludedUnits(context.plan, metric) <= 0 || used + Max(0, additional) > IncludedUnits(context.plan, metric))
  {
  }

  /** A warning is given exactly within the allowance from 80 percent on, rounded to tenths. */
  lemma WarnedExactlyWhen(events: seq<UsageEvent>, context: Context, metric: Metric, additional: int)
    requires !context.unlimited && IsEntitled(context) && context.plan.Some? && IncludedUnits(context.plan, metric) > 0
    ensures
      var included := IncludedUnits(context.plan, metric);
      var projected := UsedQuantity(events, context.tenant, metric, context.period) + Max(0, additional);
      var answer := CheckMetric(events, context, metric, additional);
      && (answer.decision == Warn <==> projected <= included && RoundHalfEven(1000 * projected, included) >= 800)
      && (answer.decision == Allow <==> projected <= included && RoundHalfEven(1000 * projected, included) < 800)
      && answer.limit == Some(included) && answer.used == Some(projected)
  {
    var projected := UsedQuantity(events, context.tenant, metric, context.period) + Max(0, additional);
    PercentReachesByRounding(projected, IncludedUnits(context.plan, metric), WARNING_PERCENT);
  }

  /**
   The dialer's gate opens always when it is not enforced or the lookup failed, when usage is unlimited or no plan is
   known; for a tenant out of service never; otherwise when overage is metered or the allowance has room for 120 seconds.
   */
  lemma CallGoesThroughExactlyWhen(events: seq<UsageEvent>, enforce: bool, context: Option<Context>)
    ensures MayPlaceOutboundCall(events, enforce, context) <==>
      || !enforce || context.None? || context.value.unlimited
      || (&& (context.value.subscription.None?
              || context.value.subscription.value !in {Canceled, Incomplete, IncompleteExpired, Paused})
          && (|| context.value.plan.None?
              || context.value.plan.value.overageEnabled
              || (&& context.value.plan.value.includedVoiceMinutes > 0
                  && UsedQuantity(events, context.value.tenant, VoiceMinute, context.value.period) + 120
                     <= 60 * context.value.plan.value.includedVoiceMinutes)))
  {
    if context.Some? {
      EntitledExactlyWhen(context.value);
      DeniedExactlyWhen(events, context.value, VoiceMinute, 120);
    }
  }

  /** And with overage on, it says so exactly when the summary rebuilt after the recording would bill overage. */
  lemma OverageForeseen(events: seq<UsageEvent>, context: Context, r: UsageRequest)
    requires !context.unlimited && IsEntitled(context) && context.plan.Some? && context.plan.value.overageEnabled
    requires r.tenant == context.tenant && r.period == context.period && r.quantity > 0 && Find(events, r.tenant, r.key).None?
    requires SignedSum(events, r.tenant, r.metric, r.period) >= 0
    ensures CheckMetric(events, context, r.metric, r.quantity).decision == AllowWithOverage
       <==> FiguresOf(Record(events, r).0, Slot(r.tenant, r.period, r.metric), context.plan).overage > 0
  {
    var used := UsedQuantity(Record(events, r).0, r.tenant, r.metric, r.period);
    OverageExactlyWhen(events, context, r.metric, r.quantity);
    RecordMovesItsBucket(events, r, r.tenant, r.metric, r.period);
    OverageIsLeastCover(used, IncludedUnits(context.plan, r.metric), r.metric, context.plan);
  }

  // ---------------------------------------------------------------- the spending cap

  /** The log and the outbound calls that passed the gate and have not ended. */
  datatype Dialer = Dialer(events: seq<UsageEvent>, inFlight: set<Uuid>)

  datatype Move =
    | Start(call: Uuid)                       // gate checked and call placed
    | End(cb: Callback)                       // a call in flight ends
    | Repeat(cb: Callback)                    // the provider repeats a callback for a call already billed
    | Other(request: UsageRequest)            // usage of another kind, or a credit

  ghost predicate SameBucket(request: UsageRequest, context: Context) {
    request.tenant == context.tenant && request.metric == VoiceMinute && request.period == context.period
  }

  /** What may happen when only gated calls of at most `limit` seconds run, at most `lines` of them at a time. */
  ghost predicate Legal(d: Dialer, move: Move, context: Context, lines: nat, limit: nat) {
    match move
    case Start(call) => MayPlaceOutboundCall(d.events, true, Some(context)) && |d.inFlight + {call}| <= lines
    case End(cb) => cb.call in d.inFlight && (cb.duration.Some? ==> cb.duration.value <= limit as real)
    case Repeat(cb) => Find(d.events, context.tenant, CallKey(cb.call)).Some?
    case Other(request) => request.quantity <= 0 || !SameBucket(request, context)
  }

  function Apply(d: Dialer, move: Move, context: Context): Dialer {
    match move
    case Start(call) => d.(inFlight := d.inFlight + {call})
    case End(cb) => Dialer(Finalized(d.events, context.tenant, cb).0, d.inFlight - {cb.call})
    case Repeat(cb) => d.(events := Finalized(d.events, context.tenant, cb).0)
    case Other(request) => d.(events := Record(d.events, request).0)
  }

  function Play(d: Dialer, moves: seq<Move>, context: Context): Dialer {
    if moves == [] then d else Apply(Play(d, moves[..|moves| - 1], context), moves[|moves| - 1], context)
  }

  ghost predicate AllLegal(d: Dialer, moves: seq<Move>, context: Context, lines: nat, limit: nat) {
    forall i | 0 <= i < |moves| :: Legal(Play(d, moves[..i], context), moves[i], context, lines, limit)
  }

  ghost function VoiceUsed(d: Dialer, context: Context): int {
    UsedQuantity(d.events, context.tenant, VoiceMinute, context.period)
  }

  /** Recorded usage plus the longest the calls in flight can still run. */
  ghost function Exposure(d: Dialer, context: Context, limit: nat): int {
    VoiceUsed(d, context) + |d.inFlight| * limit
  }

  lemma EndUsesAtMost(d: Dialer, cb: Callback, context: Context, limit: nat)
    requires limit >= 1 && (cb.duration.Some? ==> cb.duration.value <= limit as real)
    ensures VoiceUsed(Apply(d, End(cb), context), context) <= VoiceUsed(d, context) + limit
  {
    RecordMovesItsBucket(d.events, CallRequest(context.tenant, cb), context.tenant, VoiceMinute, context.period);
  }

  lemma EndKeepsExposure(d: Dialer, cb: Callback, context: Context, limit: nat)
    requires limit >= 1 && cb.call in d.inFlight && (cb.duration.Some? ==> cb.duration.value <= limit as real)
    ensures Exposure(Apply(d, End(cb), context), context, limit) <= Exposure(d, context, limit)
  {
    EndUsesAtMost(d, cb, context, limit);
    var n: nat := |d.inFlight|;
    assert |d.inFlight - {cb.call}| == n - 1;
    assert n * limit == (n - 1) * limit + limit;
  }

  lemma OtherKeepsUsage(d: Dialer, request: UsageRequest, context: Context)
    requires request.quantity <= 0 || !SameBucket(request, context)
    ensures VoiceUsed(Apply(d, Other(request), context), context) <= VoiceUsed(d, context)
  {
  }

  /** The contexts the cap is about: in service, a positive voice allowance, and no overage. */
  ghost predicate Capped(context: Context) {
    && !context.unlimited && IsEntitled(context)
    && context.plan.Some? && !context.plan.value.overageEnabled
    && context.plan.value.includedVoiceMinutes > 0
  }

  ghost function Cap(initial: int, context: Context, lines: nat, limit: nat): int {
    Max(initial, IncludedUnits(context.plan, VoiceMinute) - ESTIMATED_CALL_SECONDS + lines * limit)
  }

  lemma StartKeepsCap(d: Dialer, call: Uuid, context: Context, lines: nat, limit: nat)
    requires Capped(context) && Legal(d, Start(call), context, lines, limit)
    ensures Exposure(Apply(d, Start(call), context), context, limit)
         <= IncludedUnits(context.plan, VoiceMinute) - ESTIMATED_CALL_SECONDS + lines * limit
  {
  }

  lemma Scaled(a: nat, b: nat, c: nat)
    requires a <= b
    ensures a * c <= b * c
  {
  }

  lemma MoveKeepsCap(d: Dialer, move: Move, initial: int, context: Context, lines: nat, limit: nat)
    requires Capped(context) && limit >= 1 && Legal(d, move, context, lines, limit)
    requires Exposure(d, context, limit) <= Cap(initial, context, lines, limit)
    ensures Exposure(Apply(d, move, context), context, limit) <= Cap(initial, context, lines, limit)
  {
    match move
    case Start(call) => StartKeepsCap(d, call, context, lines, limit);
    case End(cb) => EndKeepsExposure(d, cb, context, limit);
    case Repeat(cb) =>
    case Other(request) => OtherKeepsUsage(d, request, context);
  }

  lemma AllLegalFront(d: Dialer, moves: seq<Move>, context: Context, lines: nat, limit: nat)
    requires AllLegal(d, moves, context, lines, limit) && moves != []
    ensures AllLegal(d, moves[..|moves| - 1], context, lines, limit)
    ensures Legal(Play(d, moves[..|moves| - 1], context), moves[|moves| - 1], context, lines, limit)
  {
    var front := moves[..|moves| - 1];
    forall i | 0 <= i < |front|
      ensures Legal(Play(d, front[..i], context), front[i], context, lines, limit)
    {
      assert front[..i] == moves[..i] && front[i] == moves[i];
    }
  }

  lemma {:induction false} ExposureStaysCapped(d: Dialer, moves: seq<Move>, context: Context, lines: nat, limit: nat)
    requires Capped(context) && limit >= 1 && d.inFlight == {}
    requires AllLegal(d, moves, context, lines, limit)
    ensures Exposure(Play(d, moves, context), context, limit) <= Cap(VoiceUsed(d, context), context, lines, limit)
  {
    if moves == [] {
      assert |d.inFlight| * limit == 0;
    } else {
      AllLegalFront(d, moves, context, lines, limit);
      ExposureStaysCapped(d, moves[..|moves| - 1], context, lines, limit);
      MoveKeepsCap(Play(d, moves[..|moves| - 1], context), moves[|moves| - 1], VoiceUsed(d, context), context, lines, limit);
    }
  }

  /**
   The cap: starting with no call in flight, no legal run ever records more than the larger of the usage it
   started with and the allowance less one estimated call plus what all lines together can run over.
   */
  lemma SpendingCap(d: Dialer, moves: seq<Move>, context: Context, lines: nat, limit: nat)
    requires Capped(context) && limit >= 1 && d.inFlight == {}
    requires AllLegal(d, moves, context, lines, limit)
    ensures VoiceUsed(Play(d, moves, context), context)
         <= Max(VoiceUsed(d, context), 60 * context.plan.value.includedVoiceMinutes - 120 + lines * limit)
  {
    ExposureStaysCapped(d, moves, context, lines, limit);
    Scaled(0, |Play(d, moves, context).inFlight|, limit);
  }

  // ---------------------------------------------------------------- announcing thresholds

  method ThresholdCrossed(ledger: Ledger, context: Context, metric: Metric, start: int, end: int, now: int)
    returns (announced: Option<int>)
    requires start < end
    modifies ledger`summaries
    ensures (ledger.Contents(), announced)
         == Look(old(ledger.Contents()), Slot(context.tenant, context.period, metric), context.plan,
                 ElapsedFraction(start, end, now) > LATE_FRACTION)
  {
    var slot := Slot(context.tenant, context.period, metric);
    var used := UsedQuantity(ledger.events, context.tenant, metric, context.period);
    var included := IncludedUnits(context.plan, metric);
    if included <= 0 {
      return None;
    }
    var already := if slot in ledger.summaries then ledger.summaries[slot].warnedAt else 0;
    var late := ElapsedFraction(start, end, now) > LATE_FRACTION;
    var thresholds := [HARD_PERCENT, WARNING_PERCENT];
    for i := 0 to |thresholds|
      invariant ledger.summaries == old(ledger.summaries)
      invariant i > 0 ==> !(PercentReaches(used, included, HARD_PERCENT) && already < HARD_PERCENT)
      invariant i > 1 ==> !(PercentReaches(used, included, WARNING_PERCENT) && already < WARNING_PERCENT && !late)
    {
      var threshold := thresholds[i];
      if !PercentReaches(used, included, threshold) || already >= threshold {
        continue;
      }
      if threshold == WARNING_PERCENT && late {
        continue;
      }
      if slot in ledger.summaries {
        ledger.summaries := ledger.summaries[slot := ledger.summaries[slot].(warnedAt := threshold)];
      }
      return Some(threshold);
    }
    return None;
  }

  /** What a look announces: 100, or else 80 while it is early, if rounded usage reaches it and nothing as high was announced. */
  lemma AnnouncesExactlyWhen(s: State, slot: Slot, plan: Option<Plan>, late: bool)
    requires IncludedUnits(plan, slot.metric) > 0
    ensures
      var used := UsedQuantity(s.events, slot.tenant, slot.metric, slot.period);
      var tenths := RoundHalfEven(1000 * used, IncludedUnits(plan, slot.metric));
      var announced := Look(s, slot, plan, late).1;
      && (announced == Some(100) <==> tenths >= 1000 && WarnedAt(s, slot) < 100)
      && (announced == Some(80) <==> 800 <= tenths && WarnedAt(s, slot) < 80 && !late && tenths < 1000)
      && (announced.Some? ==> announced.value == 80 || announced.value == 100)
  {
    var used := UsedQuantity(s.events, slot.tenant, slot.metric, slot.period);
    PercentReachesByRounding(used, IncludedUnits(plan, slot.metric), 80);
    PercentReachesByRounding(used, IncludedUnits(plan, slot.metric), 100);
  }

  /** Nothing is announced about a metric the plan does not include. */
  lemma NothingAnnouncedWithoutAllowance(s: State, slot: Slot, plan: Option<Plan>, late: bool)
    requires IncludedUnits(plan, slot.metric) <= 0
    ensures Look(s, slot, plan, late) == (s, None)
  {
  }

  /** A look that announced is followed by the same announcement exactly when there was no row to remember it. */
  lemma AnnouncedAgainExactlyWithoutRow(s: State, slot: Slot, plan: Option<Plan>, late: bool)
    requires Look(s, slot, plan, late).1.Some?
    ensures Look(Look(s, slot, plan, late).0, slot, plan, late).1 == Look(s, slot, plan, late).1 <==> slot !in s.summaries
    ensures slot in s.summaries ==> Look(Look(s, slot, plan, late).0, slot, plan, late).1 == None
  {
  }

  /** Before the first rebuild: one minute used of one included is announced at every look. */
  lemma AnnouncedAgain(tenant: TenantId, period: string, plan: Plan, late: bool)
    requires plan.includedVoiceMinutes == 1
    ensures
      var slot := Slot(tenant, period, VoiceMinute);
      var s := State([UsageEvent(tenant, period, VoiceMinute, VoiceMinuteUsed, 60, "k")], map[]);
      Look(s, slot, Some(plan), late) == (s, Some(HARD_PERCENT))
  {
    var log := [UsageEvent(tenant, period, VoiceMinute, VoiceMinuteUsed, 60, "k")];
    assert log[..0] == [];
    assert SignedSum(log, tenant, VoiceMinute, period) == 60;
  }

  // ---------------------------------------------------------------- announcements over a run

  /** What the looks of a run announce about a slot, oldest first. */
  function Announced(s: State, ops: seq<Op>, slot: Slot): seq<int> {
    if ops == [] then []
    else Announced(s, ops[..|ops| - 1], slot) + AnnouncedBy(Run(s, ops[..|ops| - 1]), ops[|ops| - 1], slot)
  }

  function AnnouncedBy(s: State, op: Op, slot: Slot): seq<int> {
    if !op.LookOp? || op.slot != slot then []
    else
      match Look(s, slot, op.plan, op.late).1
      case None => []
      case Some(threshold) => [threshold]
  }

  function Last(made: seq<int>, otherwise: int): int {
    if made == [] then otherwise else made[|made| - 1]
  }

  /** Only a look changes what a row remembers, and nothing deletes a row. */
  lemma StepRemembers(s: State, op: Op, slot: Slot)
    requires slot in s.summaries
    ensures slot in Step(s, op).summaries && WarnedAt(Step(s, op), slot) == Last(AnnouncedBy(s, op, slot), WarnedAt(s, slot))
  {
    match op
    case RebuildAllOp(tenant, period, plan) => RebuildAllRow(s, tenant, period, plan, slot);
    case FinalizeOp(tenant, period, plan) => FinalizeRow(s, tenant, period, plan, slot);
    case _ =>
  }

  /**
   From the moment its row exists, a slot is told 80 then 100, one of them, or nothing, whatever is recorded, adjusted,
   rebuilt or finalized between the looks; and the row remembers the last it was told.
   */
  lemma {:induction false} AnnouncedAtMostOnceEach(s: State, ops: seq<Op>, slot: Slot)
    requires slot in s.summaries
    ensures
      var made := Announced(s, ops, slot);
      && (made == [] || made == [80] || made == [100] || made == [80, 100])
      && (forall t | t in made :: WarnedAt(s, slot) < t)
      && slot in Run(s, ops).summaries && WarnedAt(Run(s, ops), slot) == Last(made, WarnedAt(s, slot))
  {
    if ops != [] {
      var front, last := ops[..|ops| - 1], ops[|ops| - 1];
      AnnouncedAtMostOnceEach(s, front, slot);
      StepRemembers(Run(s, front), last, slot);
      var made := Announced(s, front, slot);
      assert made != [] ==> Last(made, WarnedAt(s, slot)) in made;
      assert forall t | t in AnnouncedBy(Run(s, front), last, slot) :: WarnedAt(Run(s, front), slot) < t;
    }
  }

  /**
   And nothing due is missed: once a look finds 100 percent reached, or 80 early in the period, the row remembers at
   least that, and if it did not at the start the run announced it.
   */
  lemma ReachedIsAnnounced(s: State, ops: seq<Op>, slot: Slot, look: Op, threshold: int)
    requires slot in s.summaries && ops != [] && look == ops[|ops| - 1] && look.LookOp? && look.slot == slot
    requires threshold == HARD_PERCENT || (threshold == WARNING_PERCENT && !look.late)
    requires
      var events := Run(s, ops[..|ops| - 1]).events;
      var included := IncludedUnits(look.plan, slot.metric);
      included > 0 && PercentReaches(UsedQuantity(events, slot.tenant, slot.metric, slot.period), included, threshold)
    ensures WarnedAt(Run(s, ops), slot) >= threshold
    ensures WarnedAt(s, slot) < threshold ==> exists t :: t in Announced(s, ops, slot) && t >= threshold
  {
    AnnouncedAtMostOnceEach(s, ops[..|ops| - 1], slot);
    StepRemembers(Run(s, ops[..|ops| - 1]), look, slot);
    AnnouncedAtMostOnceEach(s, ops, slot);
    var made := Announced(s, ops, slot);
    assert made != [] ==> Last(made, WarnedAt(s, slot)) in made;
  }

  /** The operations that give a slot its row. */
  predicate MakesRow(op: Op, slot: Slot) {
    match op
    case RebuildOp(rebuilt, _) => rebuilt == slot
    case RebuildAllOp(tenant, period, _) => Concerns(slot, tenant, period)
    case FinalizeOp(tenant, period, _) => Concerns(slot, tenant, period)
    case _ => false
  }

  /** That moment is the first rebuild or finalization of the slot. */
  lemma {:induction false} RowExistsExactlyWhen(s: State, ops: seq<Op>, slot: Slot)
    ensures slot in Run(s, ops).summaries <==> slot in s.summaries || exists op :: op in ops && MakesRow(op, slot)
  {
    if ops != [] {
      var front, last := ops[..|ops| - 1], ops[|ops| - 1];
      RowExistsExactlyWhen(s, front, slot);
      StepMakesRow(Run(s, front), last, slot);
      assert forall op :: op in ops <==> op in front || op == last;
    }
  }

  lemma StepMakesRow(s: State, op: Op, slot: Slot)
    ensures slot in Step(s, op).summaries <==> slot in s.summaries || MakesRow(op, slot)
  {
    match op
    case RebuildAllOp(tenant, period, plan) => RebuildAllRow(s, tenant, period, plan, slot);
    case FinalizeOp(tenant, period, plan) => FinalizeRow(s, tenant, period, plan, slot);
    case _ =>
  }
}
