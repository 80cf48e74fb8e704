/**
 Any number of workers recording usage at once. Each attempt is three separate steps (look the key up, insert
 under the unique constraint, and for the loser re-read the winner's row) and the steps interleave freely.
 The main result is that every interleaving is equivalent to running the same attempts one at a time.
 */
module UsageProtocol {
  import opened Wrappers
  import opened Metering

  datatype Phase =
    | Start                   // nothing done yet
    | Ready                   // looked the key up and found no row
    | Lost                    // the insert hit the unique constraint
    | Done(report: Report)

  datatype Worker = Worker(request: UsageRequest, phase: Phase)

  /** The shared log, the workers, and the order in which workers finished. */
  datatype World = World(log: seq<UsageEvent>, workers: seq<Worker>, finished: seq<nat>)

  function Finish(w: World, i: nat, log: seq<UsageEvent>, report: Report): World
    requires i < |w.workers|
  {
    World(log, w.workers[i := w.workers[i].(phase := Done(report))], w.finished + [i])
  }

  function Enter(w: World, i: nat, phase: Phase): World
    requires i < |w.workers|
  {
    w.(workers := w.workers[i := w.workers[i].(phase := phase)])
  }

  /** One step of worker `i`; a worker that is done has no further effect. */
  function Step(w: World, i: nat): (w': World)
    requires i < |w.workers|
    ensures |w'.workers| == |w.workers|
  {
    var r := w.workers[i].request;
    match w.workers[i].phase
    case Start =>
      (match Screen(r)
       case Some(report) => Finish(w, i, w.log, report)
       case None =>
         match Find(w.log, r.tenant, r.key)
         case Some(existing) => Finish(w, i, w.log, Success(UsageResult(Some(existing), false, true)))
         case None => Enter(w, i, Ready))
    case Ready =>
      if Find(w.log, r.tenant, r.key).Some? then Enter(w, i, Lost)
      else Finish(w, i, w.log + [EventOf(r)], Success(UsageResult(Some(EventOf(r)), true, false)))
    case Lost => Finish(w, i, w.log, Success(UsageResult(Find(w.log, r.tenant, r.key), false, true)))
    case Done(_) => w
  }

  predicate ValidSchedule(schedule: seq<nat>, n: nat) {
    forall p | 0 <= p < |schedule| :: schedule[p] < n
  }

  function Run(w: World, schedule: seq<nat>): (w': World)
    requires ValidSchedule(schedule, |w.workers|)
    ensures |w'.workers| == |w.workers|
  {
    if schedule == [] then w
    else Step(Run(w, schedule[..|schedule| - 1]), schedule[|schedule| - 1])
  }

  function Begin(log: seq<UsageEvent>, requests: seq<UsageRequest>): World {
    World(log, seq(|requests|, i requires 0 <= i < |requests| => Worker(requests[i], Start)), [])
  }

  // ---------------------------------------------------------------- the sequential specification

  /** The same attempts one after the other, each atomic. */
  function RecordAll(log: seq<UsageEvent>, requests: seq<UsageRequest>): (seq<UsageEvent>, seq<Report>) {
    if requests == [] then (log, [])
    else
      var (log', reports) := RecordAll(log, requests[..|requests| - 1]);
      var (log'', report) := Record(log', requests[|requests| - 1]);
      (log'', reports + [report])
  }

  ghost predicate IsDone(w: World, i: nat) {
    i < |w.workers| && w.workers[i].phase.Done?
  }

  /** `finished` lists exactly the workers that are done, each once. */
  ghost predicate FinishedOnce(w: World) {
    && AllDone(w, w.finished)
    && (forall i: nat | IsDone(w, i) :: i in w.finished)
    && (forall p, q | 0 <= p < q < |w.finished| :: w.finished[p] != w.finished[q])
  }

  ghost predicate AllDone(w: World, order: seq<nat>) {
    forall p | 0 <= p < |order| :: order[p] < |w.workers| && w.workers[order[p]].phase.Done?
  }

  function RequestsOf(w: World, order: seq<nat>): seq<UsageRequest>
    requires ValidSchedule(order, |w.workers|)
  {
    if order == [] then []
    else RequestsOf(w, order[..|order| - 1]) + [w.workers[order[|order| - 1]].request]
  }

  ghost function ReportsOf(w: World, order: seq<nat>): seq<Report>
    requires AllDone(w, order)
  {
    if order == [] then []
    else ReportsOf(w, order[..|order| - 1]) + [w.workers[order[|order| - 1]].phase.report]
  }

  /** A worker past the screen has a request that passed it; a loser's winner is in the log. */
  ghost predicate PhasesSound(w: World) {
    forall i | 0 <= i < |w.workers| ::
      var r := w.workers[i].request;
      && (w.workers[i].phase.Ready? || w.workers[i].phase.Lost? ==> Screen(r).None?)
      && (w.workers[i].phase.Lost? ==> Find(w.log, r.tenant, r.key).Some?)
  }

  ghost predicate Linearized(log0: seq<UsageEvent>, w: World) {
    && FinishedOnce(w) && PhasesSound(w)
    && RecordAll(log0, RequestsOf(w, w.finished)) == (w.log, ReportsOf(w, w.finished))
  }

  lemma {:induction false} OrderUnaffected(w: World, w': World, order: seq<nat>)
    requires |w.workers| == |w'.workers|
    requires AllDone(w, order) && forall p | 0 <= p < |order| :: w'.workers[order[p]] == w.workers[order[p]]
    ensures RequestsOf(w', order) == RequestsOf(w, order) && ReportsOf(w', order) == ReportsOf(w, order)
  {
    if order != [] {
      OrderUnaffected(w, w', order[..|order| - 1]);
    }
  }

  /** Finishing a worker whose report is what the atomic attempt gives keeps the history sequential. */
  lemma FinishLinearized(log0: seq<UsageEvent>, w: World, i: nat, log: seq<UsageEvent>, report: Report)
    requires Linearized(log0, w) && i < |w.workers| && !IsDone(w, i)
    requires Record(w.log, w.workers[i].request) == (log, report)
    requires w.log <= log && (log == w.log || |log| == |w.log| + 1)
    ensures Linearized(log0, Finish(w, i, log, report))
  {
    var w' := Finish(w, i, log, report);
    FinishKeepsOrder(w, i, log, report);
    FinishKeepsPhases(w, i, log, report);
    OrderUnaffected(w, w', w.finished);
    OrderExtended(w', w.finished, i);
    RecordAllExtended(log0, RequestsOf(w, w.finished), w.workers[i].request);
  }

  lemma OrderExtended(w: World, order: seq<nat>, i: nat)
    requires AllDone(w, order) && AllDone(w, order + [i]) && IsDone(w, i)
    ensures RequestsOf(w, order + [i]) == RequestsOf(w, order) + [w.workers[i].request]
    ensures ReportsOf(w, order + [i]) == ReportsOf(w, order) + [w.workers[i].phase.report]
  {
  }

  lemma RecordAllExtended(log0: seq<UsageEvent>, requests: seq<UsageRequest>, r: UsageRequest)
    ensures RecordAll(log0, requests + [r])
         == (Record(RecordAll(log0, requests).0, r).0, RecordAll(log0, requests).1 + [Record(RecordAll(log0, requests).0, r).1])
  {
  }

  lemma FinishKeepsOrder(w: World, i: nat, log: seq<UsageEvent>, report: Report)
    requires FinishedOnce(w) && i < |w.workers| && !IsDone(w, i)
    ensures FinishedOnce(Finish(w, i, log, report))
  {
  }

  lemma FinishKeepsPhases(w: World, i: nat, log: seq<UsageEvent>, report: Report)
    requires PhasesSound(w) && i < |w.workers| && w.log <= log
    ensures PhasesSound(Finish(w, i, log, report))
  {
  }

  lemma EnterLinearized(log0: seq<UsageEvent>, w: World, i: nat, phase: Phase)
    requires Linearized(log0, w) && i < |w.workers| && !IsDone(w, i) && !phase.Done?
    requires PhasesSound(Enter(w, i, phase))
    ensures Linearized(log0, Enter(w, i, phase))
  {
    var w' := Enter(w, i, phase);
    OrderUnaffected(w, w', w.finished);
    forall j: nat | IsDone(w', j)
      ensures j in w'.finished
    {
      assert IsDone(w, j);
    }
  }

  lemma StepLinearized(log0: seq<UsageEvent>, w: World, i: nat)
    requires Linearized(log0, w) && i < |w.workers|
    ensures Linearized(log0, Step(w, i))
  {
    var r := w.workers[i].request;
    match w.workers[i].phase
    case Start =>
      if Screen(r).None? && Find(w.log, r.tenant, r.key).None? {
        EnterLinearized(log0, w, i, Ready);
      } else {
        FinishLinearized(log0, w, i, w.log, Record(w.log, r).1);
      }
    case Ready =>
      if Find(w.log, r.tenant, r.key).Some? {
        EnterLinearized(log0, w, i, Lost);
      } else {
        FinishLinearized(log0, w, i, w.log + [EventOf(r)], Record(w.log, r).1);
      }
    case Lost => FinishLinearized(log0, w, i, w.log, Record(w.log, r).1);
    case Done(_) =>
  }

  /**
   Every interleaving is sequential: replaying the attempts that finished, in the order they finished and
   each in one step, gives the same log and the same report to every worker.
   */
  lemma {:induction false} EveryScheduleIsSequential(log0: seq<UsageEvent>, requests: seq<UsageRequest>, schedule: seq<nat>)
    requires ValidSchedule(schedule, |requests|)
    ensures
      var w := Run(Begin(log0, requests), schedule);
      && FinishedOnce(w)
      && RecordAll(log0, RequestsOf(w, w.finished)) == (w.log, ReportsOf(w, w.finished))
    ensures Linearized(log0, Run(Begin(log0, requests), schedule))
  {
    if schedule != [] {
      var front := schedule[..|schedule| - 1];
      EveryScheduleIsSequential(log0, requests, front);
      StepLinearized(log0, Run(Begin(log0, requests), front), schedule[|schedule| - 1]);
    }
  }

  // ---------------------------------------------------------------- who reports what

  predicate SameFact(r: UsageRequest, q: UsageRequest) {
    r.tenant == q.tenant && r.key == q.key
  }

  predicate SaysCreated(report: Report) {
    report.Success? && report.value.created
  }

  function LogOf(log0: seq<UsageEvent>, requests: seq<UsageRequest>): seq<UsageEvent> {
    RecordAll(log0, requests).0
  }

  lemma {:induction false} LogGrows(log0: seq<UsageEvent>, requests: seq<UsageRequest>)
    requires UniqueKeys(log0)
    ensures log0 <= LogOf(log0, requests) && UniqueKeys(LogOf(log0, requests))
    ensures |RecordAll(log0, requests).1| == |requests|
  {
    if requests != [] {
      var front := requests[..|requests| - 1];
      LogGrows(log0, front);
      RecordKeepsKeys(LogOf(log0, front), requests[|requests| - 1]);
    }
  }

  lemma RecordKeepsKeys(log: seq<UsageEvent>, r: UsageRequest)
    requires UniqueKeys(log)
    ensures log <= Record(log, r).0 && UniqueKeys(Record(log, r).0)
  {
  }

  lemma FindKept(log: seq<UsageEvent>, log': seq<UsageEvent>, tenant: TenantId, key: string)
    requires log <= log' && UniqueKeys(log') && Find(log, tenant, key).Some?
    ensures Find(log', tenant, key) == Find(log, tenant, key)
  {
  }

  /** Every billable attempt names the one row its fact has at the end. */
  lemma {:induction false} ReportNamesTheRow(log0: seq<UsageEvent>, requests: seq<UsageRequest>, p: nat)
    requires UniqueKeys(log0) && p < |requests| && Screen(requests[p]).None?
    ensures
      var (log, reports) := RecordAll(log0, requests);
      && |reports| == |requests|
      && Find(log, requests[p].tenant, requests[p].key).Some?
      && reports[p] == Success(UsageResult(Find(log, requests[p].tenant, requests[p].key),
                                           SaysCreated(reports[p]), !SaysCreated(reports[p])))
  {
    var front, r := requests[..|requests| - 1], requests[p];
    LogGrows(log0, requests);
    LogGrows(log0, front);
    if p < |front| {
      ReportNamesTheRow(log0, front, p);
      RecordKeepsKeys(LogOf(log0, front), requests[|requests| - 1]);
      FindKept(LogOf(log0, front), LogOf(log0, requests), r.tenant, r.key);
    }
  }

  lemma {:induction false} CreatorIsBillable(log0: seq<UsageEvent>, requests: seq<UsageRequest>, p: nat)
    requires UniqueKeys(log0) && p < |requests|
    ensures |RecordAll(log0, requests).1| == |requests|
    ensures SaysCreated(RecordAll(log0, requests).1[p]) ==> Screen(requests[p]).None?
  {
    LogGrows(log0, requests);
    LogGrows(log0, requests[..|requests| - 1]);
    if p < |requests| - 1 {
      CreatorIsBillable(log0, requests[..|requests| - 1], p);
    }
  }

  /** A creator finds its fact absent, and no later attempt creates it again. */
  lemma {:induction false} CreatorIsFirst(log0: seq<UsageEvent>, requests: seq<UsageRequest>, p: nat, q: nat)
    requires UniqueKeys(log0) && p <= q < |requests| && SameFact(requests[p], requests[q])
    requires |RecordAll(log0, requests).1| == |requests|
    requires SaysCreated(RecordAll(log0, requests).1[p]) && SaysCreated(RecordAll(log0, requests).1[q])
    ensures p == q && Find(log0, requests[p].tenant, requests[p].key).None?
  {
    var front, r := requests[..|requests| - 1], requests[p];
    LogGrows(log0, front);
    if q < |front| {
      CreatorIsFirst(log0, front, p, q);
    } else {
      assert Find(LogOf(log0, front), r.tenant, r.key).None?;
      if p < q {
        CreatorIsBillable(log0, front, p);
        ReportNamesTheRow(log0, front, p);
      }
      if Find(log0, r.tenant, r.key).Some? {
        FindKept(log0, LogOf(log0, front), r.tenant, r.key);
      }
    }
  }

  /** A row that was not there before has a creator. */
  lemma {:induction false} NewRowHasCreator(log0: seq<UsageEvent>, requests: seq<UsageRequest>, tenant: TenantId, key: string)
    returns (p: nat)
    requires UniqueKeys(log0) && Find(log0, tenant, key).None? && Find(LogOf(log0, requests), tenant, key).Some?
    ensures p < |requests| == |RecordAll(log0, requests).1|
    ensures SaysCreated(RecordAll(log0, requests).1[p]) && requests[p].tenant == tenant && requests[p].key == key
  {
    var front, last := requests[..|requests| - 1], requests[|requests| - 1];
    LogGrows(log0, requests);
    LogGrows(log0, front);
    if Find(LogOf(log0, front), tenant, key).Some? {
      p := NewRowHasCreator(log0, front, tenant, key);
    } else {
      p := |front|;
      var e := Find(LogOf(log0, requests), tenant, key).value;
      assert LogOf(log0, requests) == Record(LogOf(log0, front), last).0;
      assert e == EventOf(last);
    }
  }

  ghost predicate Billable(w: World, i: nat) {
    IsDone(w, i) && Screen(w.workers[i].request).None?
  }

  ghost predicate Created(w: World, i: nat) {
    Billable(w, i) && SaysCreated(w.workers[i].phase.report)
  }

  lemma {:induction false} OrderAt(w: World, order: seq<nat>, p: nat)
    requires AllDone(w, order) && p < |order|
    ensures |RequestsOf(w, order)| == |ReportsOf(w, order)| == |order|
    ensures RequestsOf(w, order)[p] == w.workers[order[p]].request
    ensures ReportsOf(w, order)[p] == w.workers[order[p]].phase.report
  {
    if p < |order| - 1 {
      OrderAt(w, order[..|order| - 1], p);
    } else if |order| > 1 {
      OrderAt(w, order[..|order| - 1], 0);
    }
  }

  /** The place of a worker in the sequential order. */
  lemma PlaceOf(w: World, i: nat) returns (p: nat)
    requires FinishedOnce(w) && IsDone(w, i)
    ensures p < |w.finished| && w.finished[p] == i
    ensures |RequestsOf(w, w.finished)| == |ReportsOf(w, w.finished)| == |w.finished|
    ensures RequestsOf(w, w.finished)[p] == w.workers[i].request
    ensures ReportsOf(w, w.finished)[p] == w.workers[i].phase.report
  {
    p :| 0 <= p < |w.finished| && w.finished[p] == i;
    OrderAt(w, w.finished, p);
  }

  /**
   In any interleaving, two attempts that finished for one fact name the same single row, and no two of them
   claim to have created it.
   */
  lemma FinishersAgree(log0: seq<UsageEvent>, requests: seq<UsageRequest>, schedule: seq<nat>, i: nat, j: nat)
    requires UniqueKeys(log0) && ValidSchedule(schedule, |requests|)
    requires var w := Run(Begin(log0, requests), schedule);
             Billable(w, i) && Billable(w, j) && SameFact(w.workers[i].request, w.workers[j].request)
    ensures
      var w := Run(Begin(log0, requests), schedule);
      var row := Find(w.log, w.workers[i].request.tenant, w.workers[i].request.key);
      && log0 <= w.log && UniqueKeys(w.log) && row.Some?
      && w.workers[i].phase.report == Success(UsageResult(row, Created(w, i), !Created(w, i)))
      && w.workers[j].phase.report == Success(UsageResult(row, Created(w, j), !Created(w, j)))
      && (Created(w, i) && Created(w, j) ==> i == j)
  {
    EveryScheduleIsSequential(log0, requests, schedule);
    var w := Run(Begin(log0, requests), schedule);
    var order := RequestsOf(w, w.finished);
    LogGrows(log0, order);
    var p := PlaceOf(w, i);
    var q := PlaceOf(w, j);
    ReportNamesTheRow(log0, order, p);
    ReportNamesTheRow(log0, order, q);
    if Created(w, i) && Created(w, j) {
      CreatorIsFirst(log0, order, if p <= q then p else q, if p <= q then q else p);
    }
  }

  /** Once any billable attempt has finished, somebody created the row exactly when it was not there before. */
  lemma SomeoneCreatedIffNew(log0: seq<UsageEvent>, requests: seq<UsageRequest>, schedule: seq<nat>, i: nat)
    requires UniqueKeys(log0) && ValidSchedule(schedule, |requests|)
    requires Billable(Run(Begin(log0, requests), schedule), i)
    ensures
      var w := Run(Begin(log0, requests), schedule);
      var r := w.workers[i].request;
      (exists j: nat :: Created(w, j) && SameFact(r, w.workers[j].request)) <==> Find(log0, r.tenant, r.key).None?
  {
    FinishersAgree(log0, requests, schedule, i, i);
    EveryScheduleIsSequential(log0, requests, schedule);
    var w := Run(Begin(log0, requests), schedule);
    var r := w.workers[i].request;
    var order := RequestsOf(w, w.finished);
    if Find(log0, r.tenant, r.key).None? {
      var place := PlaceOf(w, i);
      var p := NewRowHasCreator(log0, order, r.tenant, r.key);
      OrderAt(w, w.finished, p);
      var j := w.finished[p];
      CreatorIsBillable(log0, order, p);
      assert Created(w, j) && SameFact(r, w.workers[j].request);
    }
    if j: nat :| Created(w, j) && SameFact(r, w.workers[j].request) {
      var p := PlaceOf(w, j);
      CreatorIsFirst(log0, order, p, p);
    }
  }

  // ---------------------------------------------------------------- progress

  function Rank(phase: Phase): nat {
    match phase
    case Start => 3
    case Ready => 2
    case Lost => 1
    case Done(_) => 0
  }

  function Turns(schedule: seq<nat>, i: nat): nat {
    if schedule == [] then 0
    else Turns(schedule[..|schedule| - 1], i) + if schedule[|schedule| - 1] == i then 1 else 0
  }

  /** A turn brings the worker that takes it closer to done and moves no other. */
  lemma TurnAdvances(w: World, j: nat, i: nat)
    requires j < |w.workers| && i < |w.workers|
    ensures
      var before, after := Rank(w.workers[i].phase), Rank(Step(w, j).workers[i].phase);
      if i == j then (before == 0 && after == 0) || after < before else after == before
  {
  }

  /**
   Three completed steps of its own finish a worker, whatever the others do in between. How long the database takes to
   complete a step is not counted: an insert may have to wait for another transaction under the same key to end.
   */
  lemma {:induction false} ThreeTurnsFinish(w: World, schedule: seq<nat>, i: nat)
    requires ValidSchedule(schedule, |w.workers|) && i < |w.workers|
    ensures Rank(Run(w, schedule).workers[i].phase) <= Max(0, Rank(w.workers[i].phase) - Turns(schedule, i))
  {
    if schedule != [] {
      var front := schedule[..|schedule| - 1];
      ThreeTurnsFinish(w, front, i);
      TurnAdvances(Run(w, front), schedule[|schedule| - 1], i);
    }
  }
}
