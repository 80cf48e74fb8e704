/** Comparing the cached summaries with the log they were built from. Nothing here changes the log. */
module Reconciliation {
  import opened Wrappers
  import opened Plans
  import opened Metering
  import opened Ledgers

  datatype Kind = MissingSummary | SummaryDrift | NegativeTotal

  datatype Discrepancy = Discrepancy(kind: Kind, metric: Metric, expected: Option<int>, found: Option<int>, financial: bool)

  function DriftOf(s: State, slot: Slot): seq<Discrepancy> {
    var actual := UsedQuantity(s.events, slot.tenant, slot.metric, slot.period);
    if slot !in s.summaries then
      if actual > 0 then [Discrepancy(MissingSummary, slot.metric, Some(actual), None, false)] else []
    else if s.summaries[slot].figures.used != actual then
      [Discrepancy(SummaryDrift, slot.metric, Some(actual), Some(s.summaries[slot].figures.used), s.summaries[slot].finalized)]
    else []
  }

  function NegativeOf(s: State, slot: Slot): seq<Discrepancy> {
    var total := TotalOf(s.events, slot);
    if total < 0 then [Discrepancy(NegativeTotal, slot.metric, Some(0), Some(total), true)] else []
  }

  function DriftFirst(s: State, tenant: TenantId, period: string, n: nat): seq<Discrepancy>
    requires n <= |ALL_METRICS|
  {
    if n == 0 then [] else DriftFirst(s, tenant, period, n - 1) + DriftOf(s, Slot(tenant, period, ALL_METRICS[n - 1]))
  }

  function NegativeFirst(s: State, tenant: TenantId, period: string, n: nat): seq<Discrepancy>
    requires n <= |ALL_METRICS|
  {
    if n == 0 then [] else NegativeFirst(s, tenant, period, n - 1) + NegativeOf(s, Slot(tenant, period, ALL_METRICS[n - 1]))
  }

  function Drift(s: State, tenant: TenantId, period: string): seq<Discrepancy> {
    DriftFirst(s, tenant, period, |ALL_METRICS|)
  }

  function Negative(s: State, tenant: TenantId, period: string): seq<Discrepancy> {
    NegativeFirst(s, tenant, period, |ALL_METRICS|)
  }

  method CheckSummaryDrift(ledger: Ledger, tenant: TenantId, period: string) returns (found: seq<Discrepancy>)
    ensures found == Drift(ledger.Contents(), tenant, period)
  {
    found := [];
    for i := 0 to |ALL_METRICS|
      invariant found == DriftFirst(ledger.Contents(), tenant, period, i)
    {
      var metric := ALL_METRICS[i];
      var slot := Slot(tenant, period, metric);
      var actual := UsedQuantity(ledger.events, tenant, metric, period);
      if slot !in ledger.summaries {
        if actual > 0 {
          found := found + [Discrepancy(MissingSummary, metric, Some(actual), None, false)];
        }
      } else {
        var row := ledger.summaries[slot];
        if row.figures.used != actual {
          found := found + [Discrepancy(SummaryDrift, metric, Some(actual), Some(row.figures.used), row.finalized)];
        }
      }
    }
  }

  method CheckNegative(ledger: Ledger, tenant: TenantId, period: string) returns (found: seq<Discrepancy>)
    ensures found == Negative(ledger.Contents(), tenant, period)
  {
    found := [];
    for i := 0 to |ALL_METRICS|
      invariant found == NegativeFirst(ledger.Contents(), tenant, period, i)
    {
      var total := SignedSum(ledger.events, tenant, ALL_METRICS[i], period);
      if total < 0 {
        found := found + [Discrepancy(NegativeTotal, ALL_METRICS[i], Some(0), Some(total), true)];
      }
    }
  }

  // ---------------------------------------------------------------- what a clean report means

  lemma {:induction false} DriftMembers(s: State, tenant: TenantId, period: string, n: nat, d: Discrepancy)
    requires n <= |ALL_METRICS|
    ensures d in DriftFirst(s, tenant, period, n)
       <==> MetricIndex(d.metric) < n && d in DriftOf(s, Slot(tenant, period, d.metric))
  {
    if n > 0 {
      DriftMembers(s, tenant, period, n - 1, d);
      assert d.metric == ALL_METRICS[n - 1] <==> MetricIndex(d.metric) == n - 1;
    }
  }

  lemma {:induction false} NegativeMembers(s: State, tenant: TenantId, period: string, n: nat, d: Discrepancy)
    requires n <= |ALL_METRICS|
    ensures d in NegativeFirst(s, tenant, period, n)
       <==> MetricIndex(d.metric) < n && d in NegativeOf(s, Slot(tenant, period, d.metric))
  {
    if n > 0 {
      NegativeMembers(s, tenant, period, n - 1, d);
      assert d.metric == ALL_METRICS[n - 1] <==> MetricIndex(d.metric) == n - 1;
    }
  }

  /** The drift report holds one entry for each row that disagrees with the log, and one for each row that is missing. */
  lemma DriftReports(s: State, tenant: TenantId, period: string, d: Discrepancy)
    ensures
      var slot, total := Slot(tenant, period, d.metric), SignedSum(s.events, tenant, d.metric, period);
      var actual := if total < 0 then 0 else total;
      d in Drift(s, tenant, period) <==>
        || (slot !in s.summaries && actual > 0 && d == Discrepancy(MissingSummary, d.metric, Some(actual), None, false))
        || (slot in s.summaries
            && var row := s.summaries[slot];
               row.figures.used != actual
               && d == Discrepancy(SummaryDrift, d.metric, Some(actual), Some(row.figures.used), row.finalized))
  {
    DriftMembers(s, tenant, period, |ALL_METRICS|, d);
  }

  /** The other report holds one entry for each total below zero. */
  lemma NegativeReports(s: State, tenant: TenantId, period: string, d: Discrepancy)
    ensures
      var total := SignedSum(s.events, tenant, d.metric, period);
      d in Negative(s, tenant, period) <==>
        total < 0 && d == Discrepancy(NegativeTotal, d.metric, Some(0), Some(total), true)
  {
    NegativeMembers(s, tenant, period, |ALL_METRICS|, d);
  }

  ghost predicate InMetricOrder(found: seq<Discrepancy>, n: nat) {
    && (forall i, j | 0 <= i < j < |found| :: MetricIndex(found[i].metric) < MetricIndex(found[j].metric))
    && forall i | 0 <= i < |found| :: MetricIndex(found[i].metric) < n
  }

  lemma {:induction false} ReportsInOrder(s: State, tenant: TenantId, period: string, n: nat)
    requires n <= |ALL_METRICS|
    ensures InMetricOrder(DriftFirst(s, tenant, period, n), n) && InMetricOrder(NegativeFirst(s, tenant, period, n), n)
  {
    if n > 0 {
      ReportsInOrder(s, tenant, period, n - 1);
      assert MetricIndex(ALL_METRICS[n - 1]) == n - 1;
    }
  }

  /** Each metric is reported at most once by each check, in the order of the metrics. */
  lemma ReportedOnce(s: State, tenant: TenantId, period: string)
    ensures InMetricOrder(Drift(s, tenant, period), 4) && InMetricOrder(Negative(s, tenant, period), 4)
  {
    ReportsInOrder(s, tenant, period, 4);
  }

  lemma NothingDrifts(s: State, tenant: TenantId, period: string)
    ensures Drift(s, tenant, period) == [] <==> forall metric :: DriftOf(s, Slot(tenant, period, metric)) == []
  {
    forall d ensures d in Drift(s, tenant, period) <==> d in DriftOf(s, Slot(tenant, period, d.metric)) {
      DriftMembers(s, tenant, period, |ALL_METRICS|, d);
    }
    if Drift(s, tenant, period) != [] {
      assert Drift(s, tenant, period)[0] in Drift(s, tenant, period);
    }
    if metric :| DriftOf(s, Slot(tenant, period, metric)) != [] {
      assert DriftOf(s, Slot(tenant, period, metric))[0] in Drift(s, tenant, period);
    }
  }

  lemma NothingNegative(s: State, tenant: TenantId, period: string)
    ensures Negative(s, tenant, period) == [] <==> forall metric :: TotalOf(s.events, Slot(tenant, period, metric)) >= 0
  {
    forall d ensures d in Negative(s, tenant, period) <==> d in NegativeOf(s, Slot(tenant, period, d.metric)) {
      NegativeMembers(s, tenant, period, |ALL_METRICS|, d);
    }
    if Negative(s, tenant, period) != [] {
      assert Negative(s, tenant, period)[0] in Negative(s, tenant, period);
    }
    if metric :| TotalOf(s.events, Slot(tenant, period, metric)) < 0 {
      var d := NegativeOf(s, Slot(tenant, period, metric))[0];
      assert d.metric == metric && d in Negative(s, tenant, period);
    }
  }

  /** The cached quantity is the exact signed sum of the log, or there is no row and nothing to cache. */
  ghost predicate CachedExactly(s: State, slot: Slot) {
    var total := TotalOf(s.events, slot);
    if slot in s.summaries then s.summaries[slot].figures.used == total && total >= 0 else total == 0
  }

  /** The two checks find nothing exactly when every metric is cached exactly. */
  lemma CleanIffCachedExactly(s: State, tenant: TenantId, period: string)
    ensures Drift(s, tenant, period) == [] && Negative(s, tenant, period) == []
       <==> forall metric :: CachedExactly(s, Slot(tenant, period, metric))
  {
    NothingDrifts(s, tenant, period);
    NothingNegative(s, tenant, period);
    forall metric
      ensures CachedExactly(s, Slot(tenant, period, metric))
         <==> DriftOf(s, Slot(tenant, period, metric)) == [] && TotalOf(s.events, Slot(tenant, period, metric)) >= 0
    {
    }
    if forall metric :: CachedExactly(s, Slot(tenant, period, metric)) {
      forall metric
        ensures DriftOf(s, Slot(tenant, period, metric)) == [] && TotalOf(s.events, Slot(tenant, period, metric)) >= 0
      {
        assert CachedExactly(s, Slot(tenant, period, metric));
      }
    }
  }

  /**
   Right after a rebuild the only possible drift is a closed row whose log moved on, reported as financial with
   the log's total against the frozen one.
   */
  lemma DriftAfterRebuild(s: State, tenant: TenantId, period: string, plan: Option<Plan>, d: Discrepancy)
    ensures
      var s' := RebuildAll(s, tenant, period, plan);
      var slot := Slot(tenant, period, d.metric);
      var actual := UsedQuantity(s.events, tenant, d.metric, period);
      d in Drift(s', tenant, period) <==>
        && IsFinalized(s, slot) && s.summaries[slot].figures.used != actual
        && d == Discrepancy(SummaryDrift, d.metric, Some(actual), Some(s.summaries[slot].figures.used), true)
  {
    DriftReports(RebuildAll(s, tenant, period, plan), tenant, period, d);
    RebuildIsFresh(s, tenant, period, plan, Slot(tenant, period, d.metric));
    RebuildAllRow(s, tenant, period, plan, Slot(tenant, period, d.metric));
  }

  /** With nothing closed, a rebuild clears the drift report. */
  lemma RebuildClearsDrift(s: State, tenant: TenantId, period: string, plan: Option<Plan>)
    requires forall metric :: !IsFinalized(s, Slot(tenant, period, metric))
    ensures Drift(RebuildAll(s, tenant, period, plan), tenant, period) == []
  {
    var found := Drift(RebuildAll(s, tenant, period, plan), tenant, period);
    if found != [] {
      DriftAfterRebuild(s, tenant, period, plan, found[0]);
    }
  }

  /** Usage that reaches a period after it closed is never absorbed: the report shows both totals as financial. */
  lemma LateUsageIsReported(s: State, ops: seq<Op>, slot: Slot, k: nat)
    requires ClosedAt(s, ops, slot, k)
    requires UsedQuantity(Run(s, ops).events, slot.tenant, slot.metric, slot.period)
          != UsedQuantity(Run(s, ops[..k]).events, slot.tenant, slot.metric, slot.period)
    ensures Discrepancy(SummaryDrift, slot.metric,
                        Some(UsedQuantity(Run(s, ops).events, slot.tenant, slot.metric, slot.period)),
                        Some(UsedQuantity(Run(s, ops[..k]).events, slot.tenant, slot.metric, slot.period)), true)
            in Drift(Run(s, ops), slot.tenant, slot.period)
  {
    var now := Run(s, ops);
    var d := Discrepancy(SummaryDrift, slot.metric,
                         Some(UsedQuantity(now.events, slot.tenant, slot.metric, slot.period)),
                         Some(UsedQuantity(Run(s, ops[..k]).events, slot.tenant, slot.metric, slot.period)), true);
    DriftReports(now, slot.tenant, slot.period, d);
    assert slot == Slot(slot.tenant, slot.period, slot.metric);
  }
}
