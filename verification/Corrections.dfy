/**
 Signed corrections: the key each is recorded under, and exactly which corrections that key tells apart. A correction
 is what its caller states; the key leaves out its period, and its reason when there is a reference.
 */
module Corrections {
  import opened Wrappers
  import opened Plans
  import opened Metering
  import Decimal
  import Text

  datatype Correction = Correction(
    metric: Metric,
    quantity: int,
    reason: string,
    actor: string,
    period: string,
    reference: Option<string>)

  /** Python's `reference or reason`. */
  function TextOf(c: Correction): string {
    if c.reference.Some? && c.reference.value != "" then c.reference.value else c.reason
  }

  function AdjustmentKey(c: Correction): string {
    UsageIdempotencyKey(c.metric, "adjust:" + TextOf(c), c.actor + ":" + Decimal.Print(c.quantity))
  }

  function AdjustmentRequest(tenant: TenantId, c: Correction): UsageRequest {
    UsageRequest(tenant, c.metric, c.quantity, AdjustmentKey(c), c.period, Some(ManualAdjustment))
  }

  // ---------------------------------------------------------------- which corrections share a key

  /**
   Neither the period nor a reason behind a reference is looked at, and text and actor may be split at another colon.
   */
  predicate Confused(c: Correction, d: Correction) {
    && c.metric == d.metric && c.quantity == d.quantity
    && (|| (TextOf(c) == TextOf(d) && c.actor == d.actor)
        || Text.Shifts(TextOf(c), ':', c.actor, TextOf(d), d.actor)
        || Text.Shifts(TextOf(d), ':', d.actor, TextOf(c), c.actor))
  }

  lemma AdjustmentKeyShape(c: Correction)
    ensures AdjustmentKey(c)
         == MetricValue(c.metric) + [':'] + ("adjust:" + (TextOf(c) + [':'] + c.actor) + [':'] + Decimal.Print(c.quantity))
  {
  }

  lemma AdjustmentKeysCollide(c: Correction, d: Correction)
    ensures AdjustmentKey(c) == AdjustmentKey(d) <==> Confused(c, d)
  {
    var x, y := TextOf(c) + [':'] + c.actor, TextOf(d) + [':'] + d.actor;
    AdjustmentKeyShape(c);
    AdjustmentKeyShape(d);
    Text.JoinedEqual(TextOf(c), ':', c.actor, TextOf(d), d.actor);
    if AdjustmentKey(c) == AdjustmentKey(d) {
      KeyPartsAgree(c.metric, x, c.quantity, d.metric, y, d.quantity);
    }
  }

  lemma KeyPartsAgree(m1: Metric, x1: string, q1: int, m2: Metric, x2: string, q2: int)
    requires MetricValue(m1) + [':'] + ("adjust:" + x1 + [':'] + Decimal.Print(q1))
          == MetricValue(m2) + [':'] + ("adjust:" + x2 + [':'] + Decimal.Print(q2))
    ensures m1 == m2 && x1 == x2 && q1 == q2
  {
    var f1, f2 := "adjust:" + x1, "adjust:" + x2;
    var n1, n2 := Decimal.Print(q1), Decimal.Print(q2);
    Text.FirstField(MetricValue(m1), ':', f1 + [':'] + n1, MetricValue(m2), f2 + [':'] + n2);
    MetricValueInjective(m1, m2);
    Decimal.PrintCharacters(q1);
    Decimal.PrintCharacters(q2);
    Text.LastField(f1, ':', n1, f2, n2);
    Decimal.PrintInjective(q1, q2);
    assert f1[7..] == x1 && f2[7..] == x2;
  }

  /** A correction never shares a key with a charge for a call or for one of its turns. */
  lemma CorrectionsApartFromCalls(c: Correction, metric: Metric, call: Uuid, discriminator: string)
    ensures AdjustmentKey(c) != UsageIdempotencyKey(metric, call, discriminator)
  {
    var entity, rest := "adjust:" + TextOf(c), c.actor + ":" + Decimal.Print(c.quantity);
    if AdjustmentKey(c) == UsageIdempotencyKey(metric, call, discriminator) {
      KeySplits(c.metric, entity, rest);
      KeySplits(metric, call, discriminator);
      Text.FirstField(MetricValue(c.metric), ':', KeyTail(entity, rest), MetricValue(metric), KeyTail(call, discriminator));
      var after := TextOf(c) + ":" + rest;
      assert KeyTail(entity, rest) == "adjust" + [':'] + after;
      if discriminator != "" {
        Text.FirstField("adjust", ':', after, call, discriminator);
      }
    }
  }

  // ---------------------------------------------------------------- what is lost

  function RowOf(tenant: TenantId, c: Correction): UsageEvent {
    EventOf(AdjustmentRequest(tenant, c))
  }

  /** `c` is written, and `d` after it is answered as a duplicate of `c` and not written. */
  predicate TakenFor(log: seq<UsageEvent>, tenant: TenantId, c: Correction, d: Correction) {
    var log', row := log + [RowOf(tenant, c)], Some(RowOf(tenant, c));
    && Record(log, AdjustmentRequest(tenant, c)) == (log', Success(UsageResult(row, true, false)))
    && Record(log', AdjustmentRequest(tenant, d)) == (log', Success(UsageResult(row, false, true)))
  }

  /** After a correction that was written, another is taken for it exactly when the two are confused. */
  lemma TakenForExactlyWhen(log: seq<UsageEvent>, tenant: TenantId, c: Correction, d: Correction)
    ensures TakenFor(log, tenant, c, d)
       <==> c.quantity != 0 && Find(log, tenant, AdjustmentKey(c)).None? && Confused(c, d)
  {
    AdjustmentKeysCollide(c, d);
    var log' := log + [RowOf(tenant, c)];
    assert log'[..|log|] == log;
    if Find(log', tenant, AdjustmentKey(d)) == Some(RowOf(tenant, c)) {
      assert RowOf(tenant, c).key == AdjustmentKey(d);
    }
  }

  /** A second reason under one reference, in any ledger that has not seen the reference. */
  lemma OtherReasonIsLost(tenant: TenantId)
    ensures TakenFor([], tenant, Correction(SmsSegment, -5, "duplicate charge", "ann", "2026-03", Some("T-1")),
                     Correction(SmsSegment, -5, "goodwill credit", "ann", "2026-03", Some("T-1")))
  {
  }

  /** A reason spelled like a reference. */
  lemma ReasonLikeReferenceIsLost(tenant: TenantId)
    ensures TakenFor([], tenant, Correction(SmsSegment, -5, "duplicate charge", "ann", "2026-03", Some("T-1")),
                     Correction(SmsSegment, -5, "T-1", "ann", "2026-03", None))
  {
  }

  /** The same credit given in a second period. */
  lemma OtherPeriodIsLost(tenant: TenantId)
    ensures TakenFor([], tenant, Correction(VoiceMinute, -60, "goodwill", "ann", "2026-03", None),
                     Correction(VoiceMinute, -60, "goodwill", "ann", "2026-04", None))
  {
  }

  /** A correction by somebody else, whose name and reason meet at another colon. */
  lemma OtherActorIsLost(tenant: TenantId)
    ensures TakenFor([], tenant, Correction(SmsSegment, -5, "refund", "ops:ann", "2026-03", None),
                     Correction(SmsSegment, -5, "refund:ops", "ann", "2026-03", None))
  {
    assert "ops:ann" == "ops" + ":" + "ann" && "refund:ops" == "refund" + ":" + "ops";
    MovedNamesAreLost([], tenant, SmsSegment, -5, "refund", "ops", "ann", "2026-03");
  }

  lemma MovedNamesAreLost(log: seq<UsageEvent>, tenant: TenantId, metric: Metric, quantity: int,
                          reason: string, moved: string, actor: string, period: string)
    requires quantity != 0
    requires Find(log, tenant, AdjustmentKey(Correction(metric, quantity, reason, moved + ":" + actor, period, None))).None?
    ensures TakenFor(log, tenant, Correction(metric, quantity, reason, moved + ":" + actor, period, None),
                     Correction(metric, quantity, reason + ":" + moved, actor, period, None))
  {
    var c := Correction(metric, quantity, reason, moved + ":" + actor, period, None);
    var d := Correction(metric, quantity, reason + ":" + moved, actor, period, None);
    assert d.reason[|reason| + 1..] == moved;
    assert Text.Shifts(reason, ':', c.actor, d.reason, actor);
    TakenForExactlyWhen(log, tenant, c, d);
  }

  /** Only the text reaches the key, so for alike corrections the text has to settle all else they could differ in. */
  predicate TextSettles(c: Correction, d: Correction) {
    c.metric == d.metric && c.quantity == d.quantity && c.actor == d.actor && TextOf(c) == TextOf(d)
    ==> c.period == d.period && c.reason == d.reason && c.reference == d.reference
  }

  predicate PlainActor(c: Correction) {
    ':' !in c.actor
  }

  /**
   For colon-free actors the key does what it is for, suppressing a replay and nothing else, exactly when the text
   settles the rest.
   */
  lemma ReplaysOnlyExactlyWhen(log: seq<UsageEvent>, tenant: TenantId, c: Correction, d: Correction)
    requires PlainActor(c) && PlainActor(d)
    requires c.quantity != 0 && Find(log, tenant, AdjustmentKey(c)).None?
    ensures (TakenFor(log, tenant, c, d) <==> c == d)
       <==> TextSettles(c, d)
  {
    TakenForExactlyWhen(log, tenant, c, d);
    PlainActorsNeverShift(c, d);
  }

  lemma PlainActorsNeverShift(c: Correction, d: Correction)
    requires PlainActor(c) && PlainActor(d)
    ensures Confused(c, d) <==> c.metric == d.metric && c.quantity == d.quantity && c.actor == d.actor && TextOf(c) == TextOf(d)
  {
  }

  /** Something each caller can check alone: a reason that opens with its period's label, and no reference. */
  predicate SelfDescribing(c: Correction) {
    PlainActor(c) && c.reference.None? && |c.period| == |"YYYY-MM"| && c.period <= c.reason
  }

  /** Self-describing corrections are never taken for each other. */
  lemma SelfDescribingIsEnough(c: Correction, d: Correction)
    requires SelfDescribing(c) && SelfDescribing(d)
    ensures TextSettles(c, d) && (Confused(c, d) <==> c == d)
  {
    PlainActorsNeverShift(c, d);
  }

  // ---------------------------------------------------------------- a whole series of corrections

  function Correct(log: seq<UsageEvent>, tenant: TenantId, cs: seq<Correction>): seq<UsageEvent> {
    if cs == [] then log
    else Record(Correct(log, tenant, cs[..|cs| - 1]), AdjustmentRequest(tenant, cs[|cs| - 1])).0
  }

  /** What a series moves a total by: each correction counts unless one before it has its key. */
  function KeptTotal(cs: seq<Correction>, metric: Metric, period: string): int {
    if cs == [] then 0
    else
      var front, last := cs[..|cs| - 1], cs[|cs| - 1];
      KeptTotal(front, metric, period)
      + if last.metric == metric && last.period == period && forall c | c in front :: !Confused(c, last) then last.quantity else 0
  }

  /** What it ought to move it by: each different correction counts once. */
  function IntendedTotal(cs: seq<Correction>, metric: Metric, period: string): int {
    if cs == [] then 0
    else
      var front, last := cs[..|cs| - 1], cs[|cs| - 1];
      IntendedTotal(front, metric, period)
      + if last.metric == metric && last.period == period && last !in front then last.quantity else 0
  }

  ghost predicate Unseen(log: seq<UsageEvent>, tenant: TenantId, cs: seq<Correction>) {
    forall c | c in cs :: Find(log, tenant, AdjustmentKey(c)).None?
  }

  lemma StepWrites(log: seq<UsageEvent>, tenant: TenantId, c: Correction, d: Correction)
    requires d.quantity != 0
    ensures Find(Record(log, AdjustmentRequest(tenant, c)).0, tenant, AdjustmentKey(d)).None?
       <==> Find(log, tenant, AdjustmentKey(d)).None? && !Confused(c, d)
  {
    AdjustmentKeysCollide(c, d);
    var log' := log + [RowOf(tenant, c)];
    assert log'[..|log|] == log;
  }

  lemma {:induction false} WrittenExactlyWhen(log: seq<UsageEvent>, tenant: TenantId, cs: seq<Correction>, d: Correction)
    requires d.quantity != 0 && Find(log, tenant, AdjustmentKey(d)).None?
    ensures Find(Correct(log, tenant, cs), tenant, AdjustmentKey(d)).None? <==> forall c | c in cs :: !Confused(c, d)
  {
    if cs != [] {
      var front, last := cs[..|cs| - 1], cs[|cs| - 1];
      WrittenExactlyWhen(log, tenant, front, d);
      StepWrites(Correct(log, tenant, front), tenant, last, d);
      assert forall c :: c in cs <==> c in front || c == last;
    }
  }

  /** For every series of corrections, the totals move by exactly the corrections whose key came first. */
  lemma {:induction false} CorrectionsMoveTotals(log: seq<UsageEvent>, tenant: TenantId, cs: seq<Correction>,
                                                 metric: Metric, period: string)
    requires Unseen(log, tenant, cs)
    ensures SignedSum(Correct(log, tenant, cs), tenant, metric, period)
         == SignedSum(log, tenant, metric, period) + KeptTotal(cs, metric, period)
  {
    if cs != [] {
      var front, last := cs[..|cs| - 1], cs[|cs| - 1];
      var before := Correct(log, tenant, front);
      CorrectionsMoveTotals(log, tenant, front, metric, period);
      RecordMovesItsBucket(before, AdjustmentRequest(tenant, last), tenant, metric, period);
      if last.quantity != 0 {
        WrittenExactlyWhen(log, tenant, front, last);
      }
    }
  }

  /** So with plain actors and texts that settle the rest, every correction counts once, however often it is replayed. */
  lemma EveryCorrectionCountsOnce(log: seq<UsageEvent>, tenant: TenantId, cs: seq<Correction>,
                                  metric: Metric, period: string)
    requires Unseen(log, tenant, cs)
    requires forall c | c in cs :: PlainActor(c)
    requires forall c, d | c in cs && d in cs :: TextSettles(c, d)
    ensures SignedSum(Correct(log, tenant, cs), tenant, metric, period)
         == SignedSum(log, tenant, metric, period) + IntendedTotal(cs, metric, period)
  {
    CorrectionsMoveTotals(log, tenant, cs, metric, period);
    KeptIsIntended(cs, metric, period);
  }

  lemma {:induction false} KeptIsIntended(cs: seq<Correction>, metric: Metric, period: string)
    requires forall c | c in cs :: PlainActor(c)
    requires forall c, d | c in cs && d in cs :: TextSettles(c, d)
    ensures KeptTotal(cs, metric, period) == IntendedTotal(cs, metric, period)
  {
    if cs != [] {
      var front, last := cs[..|cs| - 1], cs[|cs| - 1];
      KeptIsIntended(front, metric, period);
      forall c | c in front
        ensures Confused(c, last) <==> c == last
      {
        assert c in cs && last in cs;
        PlainActorsNeverShift(c, last);
      }
    }
  }
}
