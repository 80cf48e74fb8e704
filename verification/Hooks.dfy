/** Turning call-finalization callbacks, repeated and reordered, into one charge per call. */
module Hooks {
  import opened Wrappers
  import opened Plans
  import opened Metering
  import opened Ledgers

  /** One delivery of "this call ended", with the billing period current at that moment. */
  datatype Callback = Callback(call: Uuid, duration: Option<real>, period: string)

  function Seconds(cb: Callback): nat {
    BillableSeconds(cb.duration)
  }

  function CallKey(call: Uuid): string {
    UsageIdempotencyKey(VoiceMinute, call, "")
  }

  function CallRequest(tenant: TenantId, cb: Callback): UsageRequest {
    UsageRequest(tenant, VoiceMinute, Seconds(cb), CallKey(cb.call), cb.period, None)
  }

  /** The log after one callback, and whether it wrote a row. */
  function Finalized(log: seq<UsageEvent>, tenant: TenantId, cb: Callback): (seq<UsageEvent>, bool) {
    if Seconds(cb) == 0 || Find(log, tenant, CallKey(cb.call)).Some? then (log, false)
    else (log + [EventOf(CallRequest(tenant, cb))], true)
  }

  method OnCallFinalized(ledger: Ledger, tenant: TenantId, cb: Callback) returns (written: bool)
    modifies ledger`events
    ensures (ledger.events, written) == Finalized(old(ledger.events), tenant, cb)
  {
    var seconds := BillableSeconds(cb.duration);
    if seconds <= 0 {
      return false;
    }
    var key := UsageIdempotencyKey(VoiceMinute, cb.call, "");
    var report := ledger.RecordUsage(UsageRequest(tenant, VoiceMinute, seconds, key, cb.period, None));
    if report.Failure? {
      return false;
    }
    return report.value.created;
  }

  /** Callbacks delivered one after the other. */
  function Deliver(log: seq<UsageEvent>, tenant: TenantId, cbs: seq<Callback>): seq<UsageEvent> {
    if cbs == [] then log
    else Finalized(Deliver(log, tenant, cbs[..|cbs| - 1]), tenant, cbs[|cbs| - 1]).0
  }

  /** The first report that a call lasted. */
  function FirstLasting(cbs: seq<Callback>, call: Uuid): Option<Callback> {
    if cbs == [] then None
    else
      var earlier, last := FirstLasting(cbs[..|cbs| - 1], call), cbs[|cbs| - 1];
      if earlier.Some? then earlier else if last.call == call && Seconds(last) != 0 then Some(last) else None
  }

  /** What a call owes. */
  function FirstNonzero(cbs: seq<Callback>, call: Uuid): nat {
    match FirstLasting(cbs, call)
    case None => 0
    case Some(cb) => Seconds(cb)
  }

  /** It is the callback no earlier one of the call comes before, unless that call had not lasted. */
  lemma {:induction false} FirstLastingIsFirst(cbs: seq<Callback>, call: Uuid)
    ensures FirstLasting(cbs, call).None? <==> forall i | 0 <= i < |cbs| && cbs[i].call == call :: Seconds(cbs[i]) == 0
    ensures FirstLasting(cbs, call).Some? ==>
              exists i :: 0 <= i < |cbs| && FirstLasting(cbs, call) == Some(cbs[i]) && cbs[i].call == call && Seconds(cbs[i]) != 0
                          && forall j | 0 <= j < i && cbs[j].call == call :: Seconds(cbs[j]) == 0
  {
    if cbs != [] {
      var front := cbs[..|cbs| - 1];
      FirstLastingIsFirst(front, call);
      assert forall i | 0 <= i < |front| :: front[i] == cbs[i];
      if FirstLasting(front, call).Some? {
        var i :| 0 <= i < |front| && FirstLasting(front, call) == Some(front[i]) && front[i].call == call && Seconds(front[i]) != 0
                 && forall j | 0 <= j < i && front[j].call == call :: Seconds(front[j]) == 0;
        assert FirstLasting(cbs, call) == Some(cbs[i]);
      }
    }
  }

  lemma SameCallSameKey(a: Uuid, b: Uuid)
    ensures CallKey(a) == CallKey(b) <==> a == b
  {
    CallKeysInjective(VoiceMinute, a, 0, VoiceMinute, b, 0);
  }

  lemma FindAppended(log: seq<UsageEvent>, e: UsageEvent, tenant: TenantId, key: string)
    ensures Find(log + [e], tenant, key) == if e.tenant == tenant && e.key == key then Some(e) else Find(log, tenant, key)
  {
  }

  /**
   After any callbacks a call has a row exactly if it had one before or some callback said that it lasted; the new
   row is that of the first to say so: its tenant, its period, its seconds.
   */
  lemma {:induction false} ChargeOfCall(log: seq<UsageEvent>, tenant: TenantId, cbs: seq<Callback>, call: Uuid)
    ensures
      var before, after := Find(log, tenant, CallKey(call)), Find(Deliver(log, tenant, cbs), tenant, CallKey(call));
      && (before.Some? ==> after == before)
      && (before.None? ==> (after.Some? <==> FirstLasting(cbs, call).Some?))
      && (before.None? && after.Some? ==>
            var first := FirstLasting(cbs, call).value;
            && first.call == call && Seconds(first) == FirstNonzero(cbs, call) != 0
            && after.value == UsageEvent(tenant, first.period, VoiceMinute, VoiceMinuteUsed, Seconds(first), CallKey(call)))
  {
    if cbs != [] {
      var front, last := cbs[..|cbs| - 1], cbs[|cbs| - 1];
      ChargeOfCall(log, tenant, front, call);
      SameCallSameKey(call, last.call);
      FindAppended(Deliver(log, tenant, front), EventOf(CallRequest(tenant, last)), tenant, CallKey(call));
    }
  }

  // ---------------------------------------------------------------- conservation over all calls and periods

  /** A tenant's voice seconds over all periods. */
  function VoiceTotal(log: seq<UsageEvent>, tenant: TenantId): int {
    if log == [] then 0
    else
      var last := log[|log| - 1];
      VoiceTotal(log[..|log| - 1], tenant) + if last.tenant == tenant && last.metric == VoiceMinute then last.quantity else 0
  }

  ghost function Sum(charges: map<Uuid, nat>): nat {
    if charges == map[] then 0
    else
      var call :| call in charges;
      charges[call] + Sum(charges - {call})
  }

  lemma {:induction false} SumWithout(charges: map<Uuid, nat>, call: Uuid)
    requires call in charges
    ensures Sum(charges) == charges[call] + Sum(charges - {call})
    decreases |charges|
  {
    var picked: Uuid :| picked in charges && Sum(charges) == charges[picked] + Sum(charges - {picked});
    if picked != call {
      SumWithout(charges - {picked}, call);
      SumWithout(charges - {call}, picked);
      assert charges - {picked} - {call} == charges - {call} - {picked};
    }
  }

  lemma SumUpdated(charges: map<Uuid, nat>, call: Uuid, amount: nat)
    ensures Sum(charges[call := amount]) == amount + Sum(charges) - if call in charges then charges[call] else 0
  {
    SumWithout(charges[call := amount], call);
    assert charges[call := amount] - {call} == charges - {call};
    if call in charges {
      SumWithout(charges, call);
    } else {
      assert charges - {call} == charges;
    }
  }

  function CallsOf(cbs: seq<Callback>): set<Uuid> {
    set i | 0 <= i < |cbs| :: cbs[i].call
  }

  /** What a call owes to one period, or to all of them together. */
  function OwedTo(cbs: seq<Callback>, call: Uuid, period: Option<string>): nat {
    match FirstLasting(cbs, call)
    case None => 0
    case Some(cb) => if period.None? || period.value == cb.period then Seconds(cb) else 0
  }

  /** The same for each distinct call that had no row yet. */
  ghost function Owed(log: seq<UsageEvent>, tenant: TenantId, cbs: seq<Callback>, period: Option<string>): map<Uuid, nat> {
    map call | call in CallsOf(cbs) && Find(log, tenant, CallKey(call)).None? :: OwedTo(cbs, call, period)
  }

  /**
   The voice events of all periods grow by one charge per distinct call, whatever the repeats, the order and
   the periods the callbacks fell in.
   */
  lemma {:induction false} OneChargePerCall(log: seq<UsageEvent>, tenant: TenantId, cbs: seq<Callback>)
    ensures VoiceTotal(Deliver(log, tenant, cbs), tenant) == VoiceTotal(log, tenant) + Sum(Owed(log, tenant, cbs, None))
  {
    if cbs == [] {
      assert Owed(log, tenant, cbs, None) == map[];
    } else {
      var front, last := cbs[..|cbs| - 1], cbs[|cbs| - 1];
      var mid := Deliver(log, tenant, front);
      OneChargePerCall(log, tenant, front);
      ChargeOfCall(log, tenant, front, last.call);
      assert (mid + [EventOf(CallRequest(tenant, last))])[..|mid|] == mid;
      OwedGrows(log, tenant, cbs, None);
    }
  }

  /** Each period's voice bucket grows by the charges of the calls first reported to last in it; no other bucket moves. */
  lemma {:induction false} EachPeriodIsChargedItsCalls(log: seq<UsageEvent>, tenant: TenantId, cbs: seq<Callback>,
                                                       other: TenantId, metric: Metric, period: string)
    ensures SignedSum(Deliver(log, tenant, cbs), other, metric, period)
         == SignedSum(log, other, metric, period)
            + if other == tenant && metric == VoiceMinute then Sum(Owed(log, tenant, cbs, Some(period))) else 0
  {
    if cbs == [] {
      assert Owed(log, tenant, cbs, Some(period)) == map[];
    } else {
      var front, last := cbs[..|cbs| - 1], cbs[|cbs| - 1];
      var mid := Deliver(log, tenant, front);
      EachPeriodIsChargedItsCalls(log, tenant, front, other, metric, period);
      ChargeOfCall(log, tenant, front, last.call);
      assert (mid + [EventOf(CallRequest(tenant, last))])[..|mid|] == mid;
      OwedGrows(log, tenant, cbs, Some(period));
    }
  }

  lemma {:induction false} NotMentioned(cbs: seq<Callback>, call: Uuid)
    requires call !in CallsOf(cbs)
    ensures FirstLasting(cbs, call).None?
  {
    if cbs != [] {
      assert cbs[|cbs| - 1].call in CallsOf(cbs);
      assert forall c | c in CallsOf(cbs[..|cbs| - 1]) :: c in CallsOf(cbs);
      NotMentioned(cbs[..|cbs| - 1], call);
    }
  }

  /** What one more callback adds to the sum: its seconds, if it is the first to say that an unbilled call lasted. */
  lemma OwedGrows(log: seq<UsageEvent>, tenant: TenantId, cbs: seq<Callback>, period: Option<string>)
    requires cbs != []
    ensures
      var front, last := cbs[..|cbs| - 1], cbs[|cbs| - 1];
      var first := Find(log, tenant, CallKey(last.call)).None? && FirstLasting(front, last.call).None? && Seconds(last) != 0;
      Sum(Owed(log, tenant, cbs, period)) == Sum(Owed(log, tenant, front, period))
        + if first && (period.None? || period.value == last.period) then Seconds(last) else 0
  {
    var front, last := cbs[..|cbs| - 1], cbs[|cbs| - 1];
    OwedStep(log, tenant, cbs, period);
    SumUpdated(Owed(log, tenant, front, period), last.call, OwedTo(cbs, last.call, period));
    if last.call !in CallsOf(front) {
      NotMentioned(front, last.call);
    }
  }

  lemma OwedStep(log: seq<UsageEvent>, tenant: TenantId, cbs: seq<Callback>, period: Option<string>)
    requires cbs != []
    ensures
      var front, call := cbs[..|cbs| - 1], cbs[|cbs| - 1].call;
      Owed(log, tenant, cbs, period) == if Find(log, tenant, CallKey(call)).None?
                                        then Owed(log, tenant, front, period)[call := OwedTo(cbs, call, period)]
                                        else Owed(log, tenant, front, period)
  {
    var front, last := cbs[..|cbs| - 1], cbs[|cbs| - 1];
    CallsOfNext(cbs);
    forall call: Uuid | call != last.call ensures OwedTo(cbs, call, period) == OwedTo(front, call, period) {
    }
  }

  lemma CallsOfNext(cbs: seq<Callback>)
    requires cbs != []
    ensures CallsOf(cbs) == CallsOf(cbs[..|cbs| - 1]) + {cbs[|cbs| - 1].call}
  {
    var front, last := cbs[..|cbs| - 1], cbs[|cbs| - 1];
    forall c | c in CallsOf(cbs) ensures c in CallsOf(front) + {last.call} {
      var i :| 0 <= i < |cbs| && cbs[i].call == c;
      assert i < |front| ==> front[i].call == c;
    }
    forall c | c in CallsOf(front) + {last.call} ensures c in CallsOf(cbs) {
      assert last == cbs[|front|];
      if c != last.call {
        var i :| 0 <= i < |front| && front[i].call == c;
        assert cbs[i].call == c;
      }
    }
  }

  // ---------------------------------------------------------------- order does not matter

  /** Every report of a lasting call gives the same billable length. */
  ghost predicate Agree(cbs: seq<Callback>) {
    forall i, j | 0 <= i < |cbs| && 0 <= j < |cbs| && cbs[i].call == cbs[j].call && Seconds(cbs[i]) != 0 && Seconds(cbs[j]) != 0 ::
      Seconds(cbs[i]) == Seconds(cbs[j])
  }

  lemma FirstNonzeroIsSome(cbs: seq<Callback>, call: Uuid)
    ensures FirstNonzero(cbs, call) != 0 ==>
              exists i :: 0 <= i < |cbs| && cbs[i].call == call && Seconds(cbs[i]) == FirstNonzero(cbs, call)
    ensures FirstNonzero(cbs, call) == 0 ==> forall i | 0 <= i < |cbs| && cbs[i].call == call :: Seconds(cbs[i]) == 0
  {
    FirstLastingIsFirst(cbs, call);
  }

  lemma FirstNonzeroPermuted(cbs: seq<Callback>, cbs': seq<Callback>, call: Uuid)
    requires multiset(cbs) == multiset(cbs') && Agree(cbs)
    ensures FirstNonzero(cbs, call) == FirstNonzero(cbs', call)
  {
    FirstNonzeroIsSome(cbs, call);
    FirstNonzeroIsSome(cbs', call);
    if FirstNonzero(cbs, call) != 0 {
      var i :| 0 <= i < |cbs| && cbs[i].call == call && Seconds(cbs[i]) == FirstNonzero(cbs, call);
      assert cbs[i] in multiset(cbs');
      var k :| 0 <= k < |cbs'| && cbs'[k] == cbs[i];
    }
    if FirstNonzero(cbs', call) != 0 {
      var j :| 0 <= j < |cbs'| && cbs'[j].call == call && Seconds(cbs'[j]) == FirstNonzero(cbs', call);
      assert cbs'[j] in multiset(cbs);
      var k :| 0 <= k < |cbs| && cbs[k] == cbs'[j];
    }
  }

  /** Delivering the same callbacks in another order changes neither any call's charge nor the tenant's total. */
  lemma DeliveryOrderIsIrrelevant(log: seq<UsageEvent>, tenant: TenantId, cbs: seq<Callback>, cbs': seq<Callback>)
    requires multiset(cbs) == multiset(cbs') && Agree(cbs)
    ensures forall call: Uuid :: FirstNonzero(cbs, call) == FirstNonzero(cbs', call)
    ensures Owed(log, tenant, cbs, None) == Owed(log, tenant, cbs', None)
    ensures VoiceTotal(Deliver(log, tenant, cbs), tenant) == VoiceTotal(Deliver(log, tenant, cbs'), tenant)
  {
    forall call: Uuid ensures FirstNonzero(cbs, call) == FirstNonzero(cbs', call) {
      FirstNonzeroPermuted(cbs, cbs', call);
    }
    forall call: Uuid ensures OwedTo(cbs, call, None) == OwedTo(cbs', call, None) {
      assert OwedTo(cbs, call, None) == FirstNonzero(cbs, call);
      assert OwedTo(cbs', call, None) == FirstNonzero(cbs', call);
    }
    SameCalls(cbs, cbs');
    assert Owed(log, tenant, cbs, None) == Owed(log, tenant, cbs', None);
    OneChargePerCall(log, tenant, cbs);
    OneChargePerCall(log, tenant, cbs');
  }

  lemma SameCalls(cbs: seq<Callback>, cbs': seq<Callback>)
    requires multiset(cbs) == multiset(cbs')
    ensures CallsOf(cbs) == CallsOf(cbs')
  {
    forall call ensures call in CallsOf(cbs) <==> call in CallsOf(cbs') {
      if call in CallsOf(cbs) {
        var i :| 0 <= i < |cbs| && cbs[i].call == call;
        assert cbs[i] in multiset(cbs');
      }
      if call in CallsOf(cbs') {
        var i :| 0 <= i < |cbs'| && cbs'[i].call == call;
        assert cbs'[i] in multiset(cbs);
      }
    }
  }

  /** The row a callback wrote is the call's row from then on. */
  lemma {:induction false} WrittenRowStays(log: seq<UsageEvent>, tenant: TenantId, cbs: seq<Callback>, i: nat)
    requires i < |cbs|
    requires Finalized(Deliver(log, tenant, cbs[..i]), tenant, cbs[i]).1
    ensures Find(Deliver(log, tenant, cbs), tenant, CallKey(cbs[i].call)) == Some(EventOf(CallRequest(tenant, cbs[i])))
  {
    var front, last := cbs[..|cbs| - 1], cbs[|cbs| - 1];
    SameCallSameKey(cbs[i].call, last.call);
    FindAppended(Deliver(log, tenant, front), EventOf(CallRequest(tenant, last)), tenant, CallKey(cbs[i].call));
    if i < |front| {
      assert front[..i] == cbs[..i];
      WrittenRowStays(log, tenant, front, i);
    } else {
      assert cbs[..i] == front;
    }
  }

  /** At most one callback per call answers that it wrote. */
  lemma WrittenAtMostOnce(log: seq<UsageEvent>, tenant: TenantId, cbs: seq<Callback>, i: nat, j: nat)
    requires i < j < |cbs| && cbs[i].call == cbs[j].call
    requires Finalized(Deliver(log, tenant, cbs[..i]), tenant, cbs[i]).1
    ensures !Finalized(Deliver(log, tenant, cbs[..j]), tenant, cbs[j]).1
  {
    assert cbs[..j][..i] == cbs[..i] && cbs[..j][i] == cbs[i];
    WrittenRowStays(log, tenant, cbs[..j], i);
  }
}
