/**
 Usage metering without its state: idempotency keys, the append-only log as a value, the totals summed
 from it, the overage arithmetic and the voice-duration rule.
 */
module Metering {
  import opened Wrappers
  import opened Plans
  import Decimal
  import Text

  datatype EventType = VoiceMinuteUsed | SmsSegmentUsed | LlmTokenUsed | TtsCharacterUsed | ManualAdjustment

  /** One immutable row of the log. */
  datatype UsageEvent = UsageEvent(
    tenant: TenantId,
    period: string,
    metric: Metric,
    eventType: EventType,
    quantity: int,
    key: string)

  /** The arguments of one attempt to record usage. */
  datatype UsageRequest = UsageRequest(
    tenant: TenantId,
    metric: Metric,
    quantity: int,
    key: string,
    period: string,
    eventType: Option<EventType>)

  datatype UsageResult = UsageResult(event: Option<UsageEvent>, created: bool, duplicate: bool)

  datatype UsageError = NegativeUsage

  type Report = Result<UsageResult, UsageError>

  function Max(a: int, b: int): int {
    if a < b then b else a
  }

  // ---------------------------------------------------------------- recording

  function DefaultEventType(metric: Metric): EventType {
    match metric
    case VoiceMinute => VoiceMinuteUsed
    case SmsSegment => SmsSegmentUsed
    case LlmToken => LlmTokenUsed
    case TtsCharacter => TtsCharacterUsed
  }

  function EventOf(r: UsageRequest): UsageEvent {
    var eventType := match r.eventType case Some(t) => t case None => DefaultEventType(r.metric);
    UsageEvent(r.tenant, r.period, r.metric, eventType, r.quantity, r.key)
  }

  /** The row, if any, that the unique constraint on (tenant, key) allows. */
  function Find(log: seq<UsageEvent>, tenant: TenantId, key: string): (e: Option<UsageEvent>)
    ensures e.Some? ==> e.value in log && e.value.tenant == tenant && e.value.key == key
    ensures e.None? ==> forall x | x in log :: !(x.tenant == tenant && x.key == key)
  {
    if log == [] then None
    else if log[|log| - 1].tenant == tenant && log[|log| - 1].key == key then Some(log[|log| - 1])
    else Find(log[..|log| - 1], tenant, key)
  }

  /** A request that is answered without touching the log. */
  function Screen(r: UsageRequest): Option<Report> {
    if r.quantity == 0 then Some(Success(UsageResult(None, false, false)))
    else if r.quantity < 0 && r.eventType != Some(ManualAdjustment) then Some(Failure(NegativeUsage))
    else None
  }

  /** One attempt as a single atomic step: the log afterwards and the report. */
  function Record(log: seq<UsageEvent>, r: UsageRequest): (seq<UsageEvent>, Report) {
    match Screen(r)
    case Some(report) => (log, report)
    case None =>
      match Find(log, r.tenant, r.key)
      case Some(existing) => (log, Success(UsageResult(Some(existing), false, true)))
      case None => (log + [EventOf(r)], Success(UsageResult(Some(EventOf(r)), true, false)))
  }

  ghost predicate UniqueKeys(log: seq<UsageEvent>) {
    forall i, j | 0 <= i < j < |log| :: !(log[i].tenant == log[j].tenant && log[i].key == log[j].key)
  }

  /** Only an explicit adjustment is negative, and no row is zero. */
  ghost predicate SoundQuantities(log: seq<UsageEvent>) {
    forall e | e in log :: e.quantity != 0 && (e.quantity < 0 ==> e.eventType == ManualAdjustment)
  }

  /** The log only grows, keeps one row per key and never takes a negative or empty measurement. */
  lemma RecordKeepsLog(log: seq<UsageEvent>, r: UsageRequest)
    requires UniqueKeys(log) && SoundQuantities(log)
    ensures log <= Record(log, r).0
    ensures UniqueKeys(Record(log, r).0) && SoundQuantities(Record(log, r).0)
  {
  }

  /**
   A row is written exactly for a nonzero quantity that is positive or an explicit adjustment, under a key the
   tenant has not used; the row is the request itself, and what is reported is the one row the key then has.
   */
  lemma RecordExactlyWhen(log: seq<UsageEvent>, r: UsageRequest)
    ensures
      var (log', report) := Record(log, r);
      var wanted := r.quantity > 0 || (r.quantity < 0 && r.eventType == Some(ManualAdjustment));
      && (log' != log <==> wanted && forall e | e in log :: !(e.tenant == r.tenant && e.key == r.key))
      && (log' != log ==>
            && |log'| == |log| + 1 && log <= log' && report.Success? && report.value.created && !report.value.duplicate
            && var e := log'[|log|];
               && report.value.event == Some(e)
               && e.tenant == r.tenant && e.period == r.period && e.metric == r.metric
               && e.quantity == r.quantity && e.key == r.key
               && (r.eventType.Some? ==> e.eventType == r.eventType.value)
               && (r.eventType.None? ==>
                     && (e.eventType == VoiceMinuteUsed <==> r.metric == VoiceMinute)
                     && (e.eventType == SmsSegmentUsed <==> r.metric == SmsSegment)
                     && (e.eventType == LlmTokenUsed <==> r.metric == LlmToken)
                     && (e.eventType == TtsCharacterUsed <==> r.metric == TtsCharacter)))
      && (report.Failure? <==> r.quantity < 0 && r.eventType != Some(ManualAdjustment))
      && (wanted ==> report.Success? && report.value.event == Find(log', r.tenant, r.key))
      && (wanted && log' == log ==> !report.value.created && report.value.duplicate)
      && (r.quantity == 0 ==> report == Success(UsageResult(None, false, false)))
  {
  }

  // ---------------------------------------------------------------- identity

  /** What one billable fact is known by. */
  function UsageIdempotencyKey(metric: Metric, entity: string, discriminator: string): string {
    var base := MetricValue(metric) + ":" + entity;
    if discriminator != "" then base + ":" + discriminator else base
  }

  function TurnDiscriminator(turn: int): string {
    "turn:" + Decimal.Print(turn)
  }

  /** The canonical text of a UUID: 36 lower-case hexadecimal digits and dashes. */
  predicate IsUuid(s: string) {
    |s| == 36 && forall c | c in s :: '0' <= c <= '9' || 'a' <= c <= 'f' || c == '-'
  }

  type Uuid = s: string | IsUuid(s) witness "00000000-0000-0000-0000-000000000000"

  /** A key after its metric. */
  function KeyTail(entity: string, discriminator: string): string {
    if discriminator != "" then entity + ":" + discriminator else entity
  }

  lemma KeyTailInjective(e1: string, d1: string, e2: string, d2: string)
    requires ':' !in e1 && ':' !in e2 && KeyTail(e1, d1) == KeyTail(e2, d2)
    ensures e1 == e2 && d1 == d2
  {
    if d1 != "" && d2 != "" {
      Text.FirstField(e1, ':', d1, e2, d2);
    } else if d1 != "" {
      Text.IndexOfFirst(e1, ':', d1);
    } else if d2 != "" {
      Text.IndexOfFirst(e2, ':', d2);
    }
  }

  lemma KeySplits(metric: Metric, entity: string, discriminator: string)
    ensures UsageIdempotencyKey(metric, entity, discriminator) == MetricValue(metric) + [':'] + KeyTail(entity, discriminator)
  {
  }

  /** Two entity-discriminator pairs that print alike: the same pair, or a colon read on the other side of the split. */
  predicate SameTail(e1: string, d1: string, e2: string, d2: string) {
    if d1 == "" && d2 == "" then e1 == e2
    else if d1 == "" then e1 == e2 + ":" + d2
    else if d2 == "" then e2 == e1 + ":" + d1
    else (e1 == e2 && d1 == d2) || Text.Shifts(e1, ':', d1, e2, d2) || Text.Shifts(e2, ':', d2, e1, d1)
  }

  /** When two facts share a key; entities without a colon never do unless they are one fact. */
  lemma UsageKeysEqualExactlyWhen(m1: Metric, e1: string, d1: string, m2: Metric, e2: string, d2: string)
    ensures UsageIdempotencyKey(m1, e1, d1) == UsageIdempotencyKey(m2, e2, d2) <==> m1 == m2 && SameTail(e1, d1, e2, d2)
    ensures ':' !in e1 && ':' !in e2 ==> (SameTail(e1, d1, e2, d2) <==> e1 == e2 && d1 == d2)
  {
    KeySplits(m1, e1, d1);
    KeySplits(m2, e2, d2);
    if UsageIdempotencyKey(m1, e1, d1) == UsageIdempotencyKey(m2, e2, d2) {
      Text.FirstField(MetricValue(m1), ':', KeyTail(e1, d1), MetricValue(m2), KeyTail(e2, d2));
      MetricValueInjective(m1, m2);
    }
    Text.JoinedEqual(e1, ':', d1, e2, d2);
    if ':' !in e1 && ':' !in e2 && SameTail(e1, d1, e2, d2) {
      KeyTailInjective(e1, d1, e2, d2);
    }
  }

  /** Distinct (metric, call, turn) facts never suppress each other, nor a charge for a whole call. */
  lemma CallKeysInjective(m1: Metric, c1: Uuid, t1: int, m2: Metric, c2: Uuid, t2: int)
    ensures UsageIdempotencyKey(m1, c1, TurnDiscriminator(t1)) == UsageIdempotencyKey(m2, c2, TurnDiscriminator(t2))
            <==> m1 == m2 && c1 == c2 && t1 == t2
    ensures UsageIdempotencyKey(m1, c1, "") == UsageIdempotencyKey(m2, c2, "") <==> m1 == m2 && c1 == c2
    ensures UsageIdempotencyKey(m1, c1, "") != UsageIdempotencyKey(m2, c2, TurnDiscriminator(t2))
  {
    UsageKeysEqualExactlyWhen(m1, c1, TurnDiscriminator(t1), m2, c2, TurnDiscriminator(t2));
    UsageKeysEqualExactlyWhen(m1, c1, "", m2, c2, "");
    UsageKeysEqualExactlyWhen(m1, c1, "", m2, c2, TurnDiscriminator(t2));
    if TurnDiscriminator(t1) == TurnDiscriminator(t2) {
      assert TurnDiscriminator(t1)[5..] == Decimal.Print(t1) && TurnDiscriminator(t2)[5..] == Decimal.Print(t2);
      Decimal.PrintInjective(t1, t2);
    }
  }

  /** Keys can be read: the metric, the call, and the turn if there is one. */
  lemma KeysSpelledOut(call: Uuid)
    ensures UsageIdempotencyKey(VoiceMinute, call, "") == "voice_minute:" + call
    ensures UsageIdempotencyKey(SmsSegment, call, "") == "sms_segment:" + call
    ensures UsageIdempotencyKey(LlmToken, call, TurnDiscriminator(7)) == "llm_token:" + call + ":turn:7"
    ensures UsageIdempotencyKey(TtsCharacter, call, TurnDiscriminator(7)) == "tts_character:" + call + ":turn:7"
  {
    assert TurnDiscriminator(7) == "turn:7" by {
      assert Decimal.Print(7) == "7";
    }
  }

  // ---------------------------------------------------------------- totals

  predicate Matches(e: UsageEvent, tenant: TenantId, metric: Metric, period: string) {
    e.tenant == tenant && e.metric == metric && e.period == period
  }

  /** The signed sum of a tenant's rows for one metric and period. */
  function SignedSum(log: seq<UsageEvent>, tenant: TenantId, metric: Metric, period: string): int {
    if log == [] then 0
    else
      var last := log[|log| - 1];
      SignedSum(log[..|log| - 1], tenant, metric, period) + if Matches(last, tenant, metric, period) then last.quantity else 0
  }

  function EventCount(log: seq<UsageEvent>, tenant: TenantId, metric: Metric, period: string): nat {
    if log == [] then 0
    else
      EventCount(log[..|log| - 1], tenant, metric, period)
      + if Matches(log[|log| - 1], tenant, metric, period) then 1 else 0
  }

  /** The authoritative total, clamped at the reporting boundary. */
  function UsedQuantity(log: seq<UsageEvent>, tenant: TenantId, metric: Metric, period: string): int {
    Max(0, SignedSum(log, tenant, metric, period))
  }

  ghost function MatchingRows(log: seq<UsageEvent>, tenant: TenantId, metric: Metric, period: string): set<nat> {
    set i: nat | i < |log| && log[i].tenant == tenant && log[i].metric == metric && log[i].period == period
  }

  lemma NextMatchingRow(log: seq<UsageEvent>, e: UsageEvent, tenant: TenantId, metric: Metric, period: string)
    ensures MatchingRows(log + [e], tenant, metric, period)
         == MatchingRows(log, tenant, metric, period) + if Matches(e, tenant, metric, period) then {|log|} else {}
  {
  }

  /** The count is of the rows that match. */
  lemma {:induction false} RowsCounted(log: seq<UsageEvent>, tenant: TenantId, metric: Metric, period: string)
    ensures EventCount(log, tenant, metric, period) == |MatchingRows(log, tenant, metric, period)|
  {
    if log != [] {
      var front, last := log[..|log| - 1], log[|log| - 1];
      RowsCounted(front, tenant, metric, period);
      NextMatchingRow(front, last, tenant, metric, period);
      assert front + [last] == log;
      assert |front| !in MatchingRows(front, tenant, metric, period);
    }
  }

  lemma AppendMoves(log: seq<UsageEvent>, e: UsageEvent, tenant: TenantId, metric: Metric, period: string)
    ensures SignedSum(log + [e], tenant, metric, period)
         == SignedSum(log, tenant, metric, period) + if Matches(e, tenant, metric, period) then e.quantity else 0
    ensures EventCount(log + [e], tenant, metric, period)
         == EventCount(log, tenant, metric, period) + if Matches(e, tenant, metric, period) then 1 else 0
  {
    assert (log + [e])[..|log|] == log;
  }

  /** Recording moves exactly the bucket of the request, by exactly its quantity and one row when a row is written. */
  lemma RecordMovesItsBucket(log: seq<UsageEvent>, r: UsageRequest, tenant: TenantId, metric: Metric, period: string)
    ensures
      var written := Record(log, r).1.Success? && Record(log, r).1.value.created;
      SignedSum(Record(log, r).0, tenant, metric, period)
      == SignedSum(log, tenant, metric, period)
         + if written && r.tenant == tenant && r.metric == metric && r.period == period then r.quantity else 0
    ensures
      var written := Record(log, r).1.Success? && Record(log, r).1.value.created;
      EventCount(Record(log, r).0, tenant, metric, period)
      == EventCount(log, tenant, metric, period)
         + if written && r.tenant == tenant && r.metric == metric && r.period == period then 1 else 0
  {
    if Record(log, r).0 != log {
      AppendMoves(log, EventOf(r), tenant, metric, period);
    }
  }

  // ---------------------------------------------------------------- overage

  /** Seconds to whole minutes, rounded up: Python's `-(-x // 60)`. */
  function CeilMinutes(seconds: nat): nat {
    0 - (0 - seconds) / 60
  }

  /** The billable overage and its price in millicents. */
  function ComputeOverage(used: int, included: int, metric: Metric, plan: Option<Plan>): (int, int) {
    var raw := Max(0, Max(0, used) - Max(0, included));
    if raw == 0 then (0, 0)
    else
      var billable := if metric == VoiceMinute then CeilMinutes(raw) else raw;
      (billable, billable * OverageRate(plan, metric))
  }

  /** Overage is the least number of billing units that covers what was used beyond the allowance, at the plan's rate. */
  lemma OverageIsLeastCover(used: int, included: int, metric: Metric, plan: Option<Plan>)
    ensures
      var (billable, cost) := ComputeOverage(used, included, metric, plan);
      var excess := Max(0, used) - Max(0, included);
      && 0 <= billable && excess <= UnitsPerIncluded(metric) * billable
      && (forall m: nat | excess <= UnitsPerIncluded(metric) * m :: billable <= m)
      && cost == billable * OverageRate(plan, metric)
  {
  }

  /** Because the allowance is whole minutes, voice overage is the rounded-up total less the included minutes. */
  lemma VoiceOverageInMinutes(used: int, plan: Plan)
    ensures ComputeOverage(used, IncludedUnits(Some(plan), VoiceMinute), VoiceMinute, Some(plan)).0
         == Max(0, CeilMinutes(Max(0, used)) - Max(0, plan.includedVoiceMinutes))
  {
  }

  function Total(durations: seq<nat>): nat {
    if durations == [] then 0 else Total(durations[..|durations| - 1]) + durations[|durations| - 1]
  }

  function TotalPerCall(durations: seq<nat>): nat {
    if durations == [] then 0
    else TotalPerCall(durations[..|durations| - 1]) + CeilMinutes(durations[|durations| - 1])
  }

  /** Rounding the period never costs more than rounding each of n calls, and saves at most n - 1 minutes. */
  lemma {:induction false} PeriodRoundingBounds(durations: seq<nat>)
    requires durations != []
    ensures CeilMinutes(Total(durations)) <= TotalPerCall(durations) <= CeilMinutes(Total(durations)) + |durations| - 1
  {
    if |durations| > 1 {
      PeriodRoundingBounds(durations[..|durations| - 1]);
    } else {
      assert durations[..0] == [];
    }
  }

  // ---------------------------------------------------------------- voice

  const MINIMUM_BILLABLE_SECONDS := 1

  /** The seconds a call is billed: rounded down, but at least one if it lasted at all. */
  function BillableSeconds(duration: Option<real>): nat {
    if duration.None? || duration.value <= 0.0 then 0
    else Max(MINIMUM_BILLABLE_SECONDS, duration.value.Floor)
  }

  /** No call is billed more than it lasted, except that a call shorter than one second is billed one. */
  lemma BillableSecondsBounds(duration: real)
    ensures BillableSeconds(Some(duration)) == 0 <==> duration <= 0.0
    ensures 1.0 <= duration ==> BillableSeconds(Some(duration)) as real <= duration < BillableSeconds(Some(duration)) as real + 1.0
    ensures 0.0 < duration < 1.0 ==> BillableSeconds(Some(duration)) == 1
  {
  }
}
