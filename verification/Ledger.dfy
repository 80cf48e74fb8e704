/**
 The billing ledger: the append-only usage log and the cached summary rows rebuilt from it, with the
 operations that change them and what every run of those operations keeps.
 */
module Ledgers {
  import opened Wrappers
  import opened Plans
  import opened Metering
  import opened Corrections
  import opened Thresholds
  import Decimal

  /** What identifies a summary row. */
  datatype Slot = Slot(tenant: TenantId, period: string, metric: Metric)

  /** The columns an invoice is cut from. */
  datatype Figures = Figures(included: int, used: int, overage: int, millicents: int)

  datatype Summary = Summary(figures: Figures, eventCount: nat, finalized: bool, warnedAt: int)

  datatype State = State(events: seq<UsageEvent>, summaries: map<Slot, Summary>)

  /** The figures the log gives for a slot under a plan. */
  function FiguresOf(events: seq<UsageEvent>, slot: Slot, plan: Option<Plan>): Figures {
    var used := UsedQuantity(events, slot.tenant, slot.metric, slot.period);
    var included := IncludedUnits(plan, slot.metric);
    var (overage, cost) := ComputeOverage(used, included, slot.metric, plan);
    Figures(included, used, overage, cost)
  }

  function TotalOf(events: seq<UsageEvent>, slot: Slot): int {
    SignedSum(events, slot.tenant, slot.metric, slot.period)
  }

  function CountOf(events: seq<UsageEvent>, slot: Slot): nat {
    EventCount(events, slot.tenant, slot.metric, slot.period)
  }

  ghost predicate IsFinalized(s: State, slot: Slot) {
    slot in s.summaries && s.summaries[slot].finalized
  }

  /** A slot's row after a rebuild: fresh figures unless the row is closed, and always a fresh event count. */
  function RebuiltRow(s: State, slot: Slot, plan: Option<Plan>): Summary {
    var figures, count := FiguresOf(s.events, slot, plan), CountOf(s.events, slot);
    if slot !in s.summaries then Summary(figures, count, false, 0)
    else if s.summaries[slot].finalized then s.summaries[slot].(eventCount := count)
    else s.summaries[slot].(figures := figures, eventCount := count)
  }

  function Rebuild(s: State, slot: Slot, plan: Option<Plan>): State {
    s.(summaries := s.summaries[slot := RebuiltRow(s, slot, plan)])
  }

  function RebuildFirst(s: State, tenant: TenantId, period: string, plan: Option<Plan>, n: nat): State
    requires n <= |ALL_METRICS|
  {
    if n == 0 then s
    else Rebuild(RebuildFirst(s, tenant, period, plan, n - 1), Slot(tenant, period, ALL_METRICS[n - 1]), plan)
  }

  /** Every metric's row of one tenant and period rebuilt in turn. */
  function RebuildAll(s: State, tenant: TenantId, period: string, plan: Option<Plan>): State {
    RebuildFirst(s, tenant, period, plan, |ALL_METRICS|)
  }

  function Freeze(s: State, slot: Slot): State {
    if slot in s.summaries then s.(summaries := s.summaries[slot := s.summaries[slot].(finalized := true)]) else s
  }

  function FreezeFirst(s: State, tenant: TenantId, period: string, n: nat): State
    requires n <= |ALL_METRICS|
  {
    if n == 0 then s
    else Freeze(FreezeFirst(s, tenant, period, n - 1), Slot(tenant, period, ALL_METRICS[n - 1]))
  }

  /** The period closed: every row rebuilt, then every row frozen. */
  function Finalize(s: State, tenant: TenantId, period: string, plan: Option<Plan>): State {
    FreezeFirst(RebuildAll(s, tenant, period, plan), tenant, period, |ALL_METRICS|)
  }

  function WarnedAt(s: State, slot: Slot): int {
    if slot in s.summaries then s.summaries[slot].warnedAt else 0
  }

  /** One look at a slot's position: what is announced, and the row, if there is one, remembering it. */
  function Look(s: State, slot: Slot, plan: Option<Plan>, late: bool): (State, Option<int>) {
    var used := UsedQuantity(s.events, slot.tenant, slot.metric, slot.period);
    match Due(used, IncludedUnits(plan, slot.metric), late, WarnedAt(s, slot))
    case None => (s, None)
    case Some(threshold) =>
      if slot in s.summaries
      then (s.(summaries := s.summaries[slot := s.summaries[slot].(warnedAt := threshold)]), Some(threshold))
      else (s, Some(threshold))
  }

  /** The mutable tables behind one database session. */
  class Ledger {
    var events: seq<UsageEvent>
    var summaries: map<Slot, Summary>

    ghost function Contents(): State
      reads this
    {
      State(events, summaries)
    }

    constructor ()
      ensures Contents() == State([], map[])
    {
      events, summaries := [], map[];
    }

    method RecordUsage(r: UsageRequest) returns (report: Report)
      modifies this`events
      ensures (events, report) == Record(old(events), r)
    {
      if r.quantity == 0 {
        return Success(UsageResult(None, false, false));
      }
      if r.quantity < 0 && r.eventType != Some(ManualAdjustment) {
        return Failure(NegativeUsage);
      }
      var existing := Find(events, r.tenant, r.key);
      if existing.Some? {
        return Success(UsageResult(existing, false, true));
      }
      events := events + [EventOf(r)];
      return Success(UsageResult(Some(EventOf(r)), true, false));
    }

    method RecordAdjustment(tenant: TenantId, c: Correction) returns (report: Report)
      modifies this`events
      ensures (events, report) == Record(old(events), AdjustmentRequest(tenant, c))
    {
      var text := if c.reference.Some? && c.reference.value != "" then c.reference.value else c.reason;
      var key := UsageIdempotencyKey(c.metric, "adjust:" + text, c.actor + ":" + Decimal.Print(c.quantity));
      report := RecordUsage(UsageRequest(tenant, c.metric, c.quantity, key, c.period, Some(ManualAdjustment)));
    }

    method RebuildSummary(slot: Slot, plan: Option<Plan>) returns (row: Summary)
      modifies this`summaries
      ensures Contents() == Rebuild(old(Contents()), slot, plan)
      ensures row == summaries[slot]
    {
      var used := UsedQuantity(events, slot.tenant, slot.metric, slot.period);
      var included := IncludedUnits(plan, slot.metric);
      var (overage, cost) := ComputeOverage(used, included, slot.metric, plan);
      var count := EventCount(events, slot.tenant, slot.metric, slot.period);
      if slot !in summaries {
        row := Summary(Figures(0, 0, 0, 0), 0, false, 0);
      } else {
        row := summaries[slot];
        if row.finalized {
          row := row.(eventCount := count);
          summaries := summaries[slot := row];
          return;
        }
      }
      row := row.(figures := Figures(included, used, overage, cost));
      row := row.(eventCount := count);
      summaries := summaries[slot := row];
    }

    method RebuildAllSummaries(tenant: TenantId, period: string, plan: Option<Plan>)
      modifies this`summaries
      ensures Contents() == RebuildAll(old(Contents()), tenant, period, plan)
    {
      ghost var s := Contents();
      for i := 0 to |ALL_METRICS|
        invariant Contents() == RebuildFirst(s, tenant, period, plan, i)
      {
        var _ := RebuildSummary(Slot(tenant, period, ALL_METRICS[i]), plan);
      }
    }

    method FinalizePeriod(tenant: TenantId, period: string, plan: Option<Plan>)
      modifies this`summaries
      ensures Contents() == Finalize(old(Contents()), tenant, period, plan)
    {
      ghost var s := Contents();
      RebuildAllSummaries(tenant, period, plan);
      ghost var rebuilt := Contents();
      for i := 0 to |ALL_METRICS|
        invariant Contents() == FreezeFirst(rebuilt, tenant, period, i)
      {
        var slot := Slot(tenant, period, ALL_METRICS[i]);
        if slot in summaries && !summaries[slot].finalized {
          summaries := summaries[slot := summaries[slot].(finalized := true)];
        }
        assert slot in summaries ==> summaries == summaries[slot := summaries[slot]];
      }
    }
  }

  // ---------------------------------------------------------------- one row at a time

  predicate Visited(slot: Slot, tenant: TenantId, period: string, n: nat) {
    slot.tenant == tenant && slot.period == period && MetricIndex(slot.metric) < n
  }

  lemma {:induction false} RebuildFirstRow(s: State, tenant: TenantId, period: string, plan: Option<Plan>, n: nat, slot: Slot)
    requires n <= |ALL_METRICS|
    ensures
      var s' := RebuildFirst(s, tenant, period, plan, n);
      && s'.events == s.events
      && (slot in s'.summaries <==> slot in s.summaries || Visited(slot, tenant, period, n))
      && (slot in s'.summaries ==>
            s'.summaries[slot] == if Visited(slot, tenant, period, n) then RebuiltRow(s, slot, plan) else s.summaries[slot])
  {
    if n > 0 {
      RebuildFirstRow(s, tenant, period, plan, n - 1, slot);
      assert slot.metric == ALL_METRICS[n - 1] <==> MetricIndex(slot.metric) == n - 1;
    }
  }

  lemma {:induction false} FreezeFirstRow(s: State, tenant: TenantId, period: string, n: nat, slot: Slot)
    requires n <= |ALL_METRICS|
    ensures
      var s' := FreezeFirst(s, tenant, period, n);
      && s'.events == s.events
      && (slot in s'.summaries <==> slot in s.summaries)
      && (slot in s'.summaries ==>
            s'.summaries[slot] == if Visited(slot, tenant, period, n) then s.summaries[slot].(finalized := true) else s.summaries[slot])
  {
    if n > 0 {
      FreezeFirstRow(s, tenant, period, n - 1, slot);
      assert slot.metric == ALL_METRICS[n - 1] <==> MetricIndex(slot.metric) == n - 1;
    }
  }

  predicate Concerns(slot: Slot, tenant: TenantId, period: string) {
    slot.tenant == tenant && slot.period == period
  }

  /** Rebuilding a period touches exactly its own rows and leaves the log alone. */
  lemma RebuildAllRow(s: State, tenant: TenantId, period: string, plan: Option<Plan>, slot: Slot)
    ensures
      var s' := RebuildAll(s, tenant, period, plan);
      && s'.events == s.events
      && (slot in s'.summaries <==> slot in s.summaries || Concerns(slot, tenant, period))
      && (slot in s'.summaries ==>
            s'.summaries[slot] == if Concerns(slot, tenant, period) then RebuiltRow(s, slot, plan) else s.summaries[slot])
  {
    RebuildFirstRow(s, tenant, period, plan, |ALL_METRICS|, slot);
  }

  lemma FinalizeRow(s: State, tenant: TenantId, period: string, plan: Option<Plan>, slot: Slot)
    ensures
      var s' := Finalize(s, tenant, period, plan);
      && s'.events == s.events
      && (slot in s'.summaries <==> slot in s.summaries || Concerns(slot, tenant, period))
      && (slot in s'.summaries ==>
            s'.summaries[slot] == if Concerns(slot, tenant, period) then RebuiltRow(s, slot, plan).(finalized := true)
                                  else s.summaries[slot])
  {
    RebuildAllRow(s, tenant, period, plan, slot);
    FreezeFirstRow(RebuildAll(s, tenant, period, plan), tenant, period, |ALL_METRICS|, slot);
  }

  /** What those figures are: the log's total, never below zero, against the plan's allowance, and the overage it prices. */
  lemma FiguresAreTheLogs(events: seq<UsageEvent>, slot: Slot, plan: Option<Plan>)
    ensures
      var f, total := FiguresOf(events, slot, plan), SignedSum(events, slot.tenant, slot.metric, slot.period);
      var unit := if slot.metric == VoiceMinute then 60 else 1;
      && f.used == (if total < 0 then 0 else total)
      && f.included == IncludedUnits(plan, slot.metric)
      && f.used - Max(0, f.included) <= unit * f.overage
      && 0 <= f.overage && (forall m: nat | f.used - Max(0, f.included) <= unit * m :: f.overage <= m)
      && f.millicents == f.overage * OverageRate(plan, slot.metric)
  {
    OverageIsLeastCover(UsedQuantity(events, slot.tenant, slot.metric, slot.period), IncludedUnits(plan, slot.metric), slot.metric, plan);
  }

  /** A rebuild gives the log's own figures to a row that is not closed, and to a closed one only the count. */
  lemma RebuildIsFresh(s: State, tenant: TenantId, period: string, plan: Option<Plan>, slot: Slot)
    requires Concerns(slot, tenant, period)
    ensures
      var s' := RebuildAll(s, tenant, period, plan);
      && slot in s'.summaries
      && s'.summaries[slot].eventCount == CountOf(s.events, slot)
      && s'.summaries[slot].finalized == IsFinalized(s, slot)
      && s'.summaries[slot].warnedAt == WarnedAt(s, slot)
      && s'.summaries[slot].figures == if IsFinalized(s, slot) then s.summaries[slot].figures else FiguresOf(s.events, slot, plan)
  {
    RebuildAllRow(s, tenant, period, plan, slot);
  }

  /** Closing gives the same, closed. */
  lemma FinalizeIsFresh(s: State, tenant: TenantId, period: string, plan: Option<Plan>, slot: Slot)
    requires Concerns(slot, tenant, period)
    ensures
      var s' := Finalize(s, tenant, period, plan);
      && slot in s'.summaries && s'.summaries[slot].finalized
      && s'.summaries[slot].eventCount == CountOf(s.events, slot)
      && s'.summaries[slot].warnedAt == WarnedAt(s, slot)
      && s'.summaries[slot].figures == if IsFinalized(s, slot) then s.summaries[slot].figures else FiguresOf(s.events, slot, plan)
  {
    FinalizeRow(s, tenant, period, plan, slot);
  }

  /** Rebuilding one row is what rebuilding the period does to it. */
  lemma RebuildOneRow(s: State, slot: Slot, plan: Option<Plan>, other: Slot)
    ensures
      var one, all := Rebuild(s, slot, plan), RebuildAll(s, slot.tenant, slot.period, plan);
      && one.events == s.events && slot in one.summaries && slot in all.summaries
      && one.summaries[slot] == all.summaries[slot]
      && (other != slot ==> (other in one.summaries <==> other in s.summaries))
      && (other != slot && other in s.summaries ==> one.summaries[other] == s.summaries[other])
  {
    RebuildAllRow(s, slot.tenant, slot.period, plan, slot);
  }

  /** Rebuilding, and closing, a period twice is doing it once. */
  lemma RebuildAndFinalizeIdempotent(s: State, tenant: TenantId, period: string, plan: Option<Plan>)
    ensures RebuildAll(RebuildAll(s, tenant, period, plan), tenant, period, plan) == RebuildAll(s, tenant, period, plan)
    ensures Finalize(Finalize(s, tenant, period, plan), tenant, period, plan) == Finalize(s, tenant, period, plan)
  {
    var r, f := RebuildAll(s, tenant, period, plan), Finalize(s, tenant, period, plan);
    var rr, ff := RebuildAll(r, tenant, period, plan), Finalize(f, tenant, period, plan);
    forall slot
      ensures slot in rr.summaries <==> slot in r.summaries
      ensures slot in r.summaries ==> rr.summaries[slot] == r.summaries[slot]
      ensures slot in ff.summaries <==> slot in f.summaries
      ensures slot in f.summaries ==> ff.summaries[slot] == f.summaries[slot]
    {
      RebuildAllRow(s, tenant, period, plan, slot);
      RebuildAllRow(r, tenant, period, plan, slot);
      FinalizeRow(s, tenant, period, plan, slot);
      FinalizeRow(f, tenant, period, plan, slot);
    }
    RebuildAllRow(s, tenant, period, plan, Slot(tenant, period, VoiceMinute));
    RebuildAllRow(r, tenant, period, plan, Slot(tenant, period, VoiceMinute));
    FinalizeRow(s, tenant, period, plan, Slot(tenant, period, VoiceMinute));
    FinalizeRow(f, tenant, period, plan, Slot(tenant, period, VoiceMinute));
    assert rr.summaries == r.summaries && ff.summaries == f.summaries;
  }

  // ---------------------------------------------------------------- runs

  datatype Op =
    | RecordOp(request: UsageRequest)
    | AdjustOp(tenant: TenantId, correction: Correction)
    | RebuildOp(slot: Slot, plan: Option<Plan>)
    | RebuildAllOp(tenant: TenantId, period: string, plan: Option<Plan>)
    | FinalizeOp(tenant: TenantId, period: string, plan: Option<Plan>)
    | LookOp(slot: Slot, plan: Option<Plan>, late: bool)

  function Step(s: State, op: Op): State {
    match op
    case RecordOp(r) => s.(events := Record(s.events, r).0)
    case AdjustOp(tenant, c) => s.(events := Record(s.events, AdjustmentRequest(tenant, c)).0)
    case RebuildOp(slot, plan) => Rebuild(s, slot, plan)
    case RebuildAllOp(tenant, period, plan) => RebuildAll(s, tenant, period, plan)
    case FinalizeOp(tenant, period, plan) => Finalize(s, tenant, period, plan)
    case LookOp(slot, plan, late) => Look(s, slot, plan, late).0
  }

  function Run(s: State, ops: seq<Op>): State {
    if ops == [] then s else Step(Run(s, ops[..|ops| - 1]), ops[|ops| - 1])
  }

  /** What every run keeps of the log: rows are never lost, never doubled and never silently negative. */
  lemma {:induction false} RunKeepsLog(s: State, ops: seq<Op>)
    requires UniqueKeys(s.events) && SoundQuantities(s.events)
    ensures s.events <= Run(s, ops).events
    ensures UniqueKeys(Run(s, ops).events) && SoundQuantities(Run(s, ops).events)
  {
    if ops != [] {
      var mid := Run(s, ops[..|ops| - 1]);
      RunKeepsLog(s, ops[..|ops| - 1]);
      match ops[|ops| - 1]
      case RecordOp(r) => RecordKeepsLog(mid.events, r);
      case AdjustOp(tenant, c) => RecordKeepsLog(mid.events, AdjustmentRequest(tenant, c));
      case RebuildOp(slot, plan) =>
      case RebuildAllOp(tenant, period, plan) => RebuildAllRow(mid, tenant, period, plan, Slot(tenant, period, VoiceMinute));
      case FinalizeOp(tenant, period, plan) => FinalizeRow(mid, tenant, period, plan, Slot(tenant, period, VoiceMinute));
      case LookOp(slot, plan, late) =>
    }
  }

  lemma StepKeepsFinalized(s: State, op: Op, slot: Slot)
    requires IsFinalized(s, slot)
    ensures IsFinalized(Step(s, op), slot) && Step(s, op).summaries[slot].figures == s.summaries[slot].figures
  {
    match op
    case RebuildAllOp(tenant, period, plan) => RebuildAllRow(s, tenant, period, plan, slot);
    case FinalizeOp(tenant, period, plan) => FinalizeRow(s, tenant, period, plan, slot);
    case _ =>
  }

  /** A row that is already closed keeps its figures through every run. */
  lemma {:induction false} RunKeepsFinalized(s: State, ops: seq<Op>, slot: Slot)
    requires IsFinalized(s, slot)
    ensures IsFinalized(Run(s, ops), slot) && Run(s, ops).summaries[slot].figures == s.summaries[slot].figures
  {
    if ops != [] {
      RunKeepsFinalized(s, ops[..|ops| - 1], slot);
      StepKeepsFinalized(Run(s, ops[..|ops| - 1]), ops[|ops| - 1], slot);
    }
  }

  /** `k` is the step of the run at which the slot was closed, and its row still shows that moment's figures. */
  ghost predicate ClosedAt(s: State, ops: seq<Op>, slot: Slot, k: nat) {
    && k < |ops| && ops[k].FinalizeOp? && Concerns(slot, ops[k].tenant, ops[k].period)
    && !IsFinalized(Run(s, ops[..k]), slot)
    && IsFinalized(Run(s, ops), slot)
    && Run(s, ops).summaries[slot].figures == FiguresOf(Run(s, ops[..k]).events, slot, ops[k].plan)
  }

  /**
   In every run, a row that ends closed was closed by one finalizing step, and whatever was recorded, adjusted,
   rebuilt or finalized afterwards its figures are those the log and the plan gave at that step.
   */
  lemma {:induction false} FinalizedFiguresAreForever(s: State, ops: seq<Op>, slot: Slot) returns (k: nat)
    requires !IsFinalized(s, slot) && IsFinalized(Run(s, ops), slot)
    ensures ClosedAt(s, ops, slot, k)
  {
    var front, last := ops[..|ops| - 1], ops[|ops| - 1];
    var mid := Run(s, front);
    if IsFinalized(mid, slot) {
      k := FinalizedFiguresAreForever(s, front, slot);
      StepKeepsFinalized(mid, last, slot);
      assert front[..k] == ops[..k] && front[k] == ops[k];
    } else {
      k := |front|;
      match last
      case RebuildAllOp(tenant, period, plan) => RebuildAllRow(mid, tenant, period, plan, slot);
      case FinalizeOp(tenant, period, plan) => FinalizeRow(mid, tenant, period, plan, slot);
      case _ =>
    }
  }

  /** The closing step is unique. */
  lemma ClosedOnce(s: State, ops: seq<Op>, slot: Slot, j: nat, k: nat)
    requires ClosedAt(s, ops, slot, j) && ClosedAt(s, ops, slot, k)
    ensures j == k
  {
    if j < k {
      ClosedBefore(s, ops, slot, j, k);
    } else if k < j {
      ClosedBefore(s, ops, slot, k, j);
    }
  }

  lemma RunTake(s: State, ops: seq<Op>, k: nat)
    requires 0 < k <= |ops|
    ensures Run(s, ops[..k]) == Step(Run(s, ops[..k - 1]), ops[k - 1])
  {
    assert ops[..k][..k - 1] == ops[..k - 1];
  }

  lemma {:induction false} ClosedBefore(s: State, ops: seq<Op>, slot: Slot, j: nat, k: nat)
    requires j < k <= |ops| && ops[j].FinalizeOp? && Concerns(slot, ops[j].tenant, ops[j].period)
    ensures IsFinalized(Run(s, ops[..k]), slot)
  {
    RunTake(s, ops, k);
    if j + 1 < k {
      ClosedBefore(s, ops, slot, j, k - 1);
      StepKeepsFinalized(Run(s, ops[..k - 1]), ops[k - 1], slot);
    } else {
      FinalizeRow(Run(s, ops[..j]), ops[j].tenant, ops[j].period, ops[j].plan, slot);
    }
  }
}
