# VoxDesk: billing ledger, billing periods, authentication and four small cores

This project models the parts of VoxDesk whose correctness depends on many steps or on every input, and proves what
they promise. `dafny verify dfyconfig.toml` checks everything.

| file | what it models |
|---|---|
| `Metering.dfy`, `Plans.dfy` | idempotency keys, the append-only log as a value, signed totals, overage arithmetic |
| `Corrections.dfy` | signed corrections, the key they are recorded under, and which corrections it takes for one |
| `UsageProtocol.dfy` | any number of workers recording usage at once, step by step |
| `Ledger.dfy` | the log and the cached summaries as mutable tables; rebuild, finalize, and runs of them |
| `Reconciliation.dfy` | comparing the cache with the log |
| `Hooks.dfy` | call-finalization callbacks, repeated and reordered |
| `Thresholds.dfy`, `Entitlements.dfy` | the spending gate, what it guarantees over time, and threshold announcements over whole runs of the ledger |
| `Calendar.dfy`, `Periods.dfy` | clamped month arithmetic and the walk that finds a billing period |
| `Rbac.dfy`, `Auth.dfy` | the role order and the account service on its tables |
| `SignIn.dfy`, `Lockout.dfy`, `TokenRotation.dfy`, `Team.dfy` | who gets in and what each operation grants, in terms of the rows, and what every run of the account service keeps |
| `Stats.dfy` | least squares and the moving average in exact arithmetic |
| `Humanize.dfy` | numbers as words |
| `Encoding.dfy`, `Licensing.dfy` | UTF-8 (RFC 3629), URL-safe Base64 (section 5 of RFC 4648) and licence tokens |
| `Availability.dfy` | the free-slot search |
| `Wrappers.dfy`, `Decimal.dfy`, `Text.dfy` | results, decimal numerals, splitting and joining |

How things are represented. Tables are sequences and maps; a row's id is its place in the table. A unique constraint is
an insert that refuses an existing key. Code that changes rows is a class whose methods change its fields and are proved
against functions from state to state; runs are sequences of operations folded over those functions. Clocks, password
verdicts, digests and freshly generated refresh-token digests are parameters. A digest that is already taken makes the
insert fail and the operation roll back, so nothing is assumed about randomness. The keyed digest of a licence is a
function parameter.

Where the code and its own comments differ, the model follows the code:

* `app/billing/periods.py:206-215` steps from the already clamped start. A subscription anchored on the 31st therefore
  keeps the smallest day it has reached: `Periods.WalkFromMonthEndDrifts` gives the dates, `Periods.WalkIsAddition` says
  exactly when the walk is plain month addition, and `Periods.PreviousUndoesStep` exactly when the period before is the
  one the walk came from.
* `app/billing/periods.py:96-109` computes the end of a period before it compares anything, so in December 9999 there is
  an error instead of a period. `Periods.Project` and `Periods.ResolvePeriod` say for exactly which rows and moments.
* `app/billing/metering.py:223-231` says two different corrections never share a key. They can in four ways, and the second
  of the two is then answered as a duplicate and never written: two reasons under one reference
  (`Corrections.OtherReasonIsLost`), a reason spelled like a reference (`Corrections.ReasonLikeReferenceIsLost`), one
  correction given in two periods (`Corrections.OtherPeriodIsLost`), and a text and an actor that meet at another colon
  (`Corrections.OtherActorIsLost`). `Corrections.TakenForExactlyWhen` says exactly which corrections are lost to which.
  Keeping colons out of actors rules out only the last kind. The key then does its job exactly when the text (the
  reference, or else the reason) also settles reason, reference and period (`Corrections.ReplaysOnlyExactlyWhen`). Giving
  no reference and opening the reason with the period's label is a rule that each caller can check alone and that is
  enough (`Corrections.SelfDescribingIsEnough`).
* `app/auth/rbac.py:113-114` says only an owner can create an owner. Granting needs a strictly lower role, so nobody can.
* `app/billing/entitlements.py:240-243` warns at 80 percent after rounding to tenths, so from 79.95 percent on:
  `Thresholds.PercentReachesByRounding`.
* `app/billing/entitlements.py:474-483` says an announced threshold is remembered. It is only if a summary row exists;
  until the first rebuild every look announces again (`Entitlements.AnnouncedAgain`), and a look is repeated exactly when
  there is no row (`Entitlements.AnnouncedAgainExactlyWithoutRow`).
* `app/billing/licensing.py:86` says any failure gives nothing. A signature that is not ASCII raises instead:
  `Licensing.RaisesExactlyWhen`.

## Model

| member | source | states |
|---|---|---|
| Metering.RecordExactlyWhen | app/billing/metering.py:126-206 | a row is written exactly for a positive quantity or a negative adjustment under an unused key; the row carries the request and its metric's event type; a used key is answered as a duplicate of its one row, a zero with nothing |
| Metering.RecordKeepsLog | app/billing/metering.py:11-20 | recording never loses a row, never doubles a key, and never stores a zero or an unexplained negative |
| Metering.RecordMovesItsBucket | app/billing/metering.py:247-274 | a written row moves the signed total of its own tenant, metric and period by its quantity and its count by one, and no other |
| Metering.RowsCounted | app/billing/metering.py:414-422 | the event count is the number of matching rows |
| Metering.UsageKeysEqualExactlyWhen | app/billing/metering.py:78-101 | two keys are equal exactly when the metrics are and entity and discriminator are, or differ only in which colon splits them, which colon-free entities cannot |
| Metering.CallKeysInjective | app/billing/hooks.py:190-221 | (metric, call, turn) facts never share a key with each other nor with the charge for a whole call |
| Metering.KeysSpelledOut | app/billing/metering.py:85-101 | a key reads as its metric, its call and its turn |
| Corrections.AdjustmentKeysCollide | app/billing/metering.py:228-231 | two corrections share a key exactly when metric and quantity agree and text and actor do, or split one string at different colons; period and hidden reason play no part |
| Corrections.TakenForExactlyWhen | app/billing/metering.py:209-242 | after a correction that was written, another is answered as its duplicate and dropped exactly when the two share a key |
| Corrections.OtherReasonIsLost | app/billing/metering.py:223-231 | a second reason under one reference is dropped |
| Corrections.ReasonLikeReferenceIsLost | app/billing/metering.py:223-231 | a reason spelled like an earlier reference is dropped |
| Corrections.OtherPeriodIsLost | app/billing/metering.py:223-231 | the same correction in a second period is dropped |
| Corrections.OtherActorIsLost | app/billing/metering.py:223-231 | a correction by somebody else, split at another colon, is dropped |
| Corrections.MovedNamesAreLost | app/billing/metering.py:223-231 | so is every correction got from another by moving part of the actor before the colon to the end of the reason |
| Corrections.ReplaysOnlyExactlyWhen | app/billing/metering.py:223-231 | for colon-free actors only a replay is dropped, exactly when equal metric, quantity, actor and text imply equal reason, reference and period |
| Corrections.SelfDescribingIsEnough | app/billing/metering.py:223-231 | colon-free actors, no reference and a reason that opens with the period's label imply it |
| Corrections.CorrectionsMoveTotals | app/billing/metering.py:209-274 | over any series of corrections every total moves by exactly those whose key came first |
| Corrections.EveryCorrectionCountsOnce | app/billing/metering.py:209-274 | under that condition, by each different correction once, however often and in whatever order it is replayed |
| Corrections.CorrectionsApartFromCalls | app/billing/metering.py:228-231 | a correction never shares a key with the charge for a call or one of its turns |
| Metering.OverageIsLeastCover | app/billing/metering.py:277-309 | for any usage and any allowance, overage is the least number of billing units covering the excess, priced at the plan's rate |
| Plans.ColumnsByMetric | app/billing/plans.py:245-263 | each metric's allowance and price come from its own plan columns, voice at 60 units an included minute; no plan includes or costs nothing |
| Metering.VoiceOverageInMinutes | app/billing/plans.py:245-257 | voice overage is the rounded-up total less the included minutes, floored at zero |
| Metering.PeriodRoundingBounds | app/billing/metering.py:56-63 | rounding the period never exceeds per-call rounding of n calls and falls short of it by at most n - 1 minutes |
| Metering.BillableSecondsBounds | app/billing/metering.py:516-527 | zero exactly for a call that did not last, one second below a second, otherwise within one second below the duration |
| UsageProtocol.EveryScheduleIsSequential | app/billing/metering.py:140-206 | every interleaving of look-up, insert and re-read steps gives the log and the reports of running the finished attempts one at a time in the order they finished |
| UsageProtocol.FinishersAgree | app/billing/metering.py:183-206 | in any interleaving the log only grows with unique keys, all who finish for one fact name the same row, creator or duplicate, and at most one created it |
| UsageProtocol.SomeoneCreatedIffNew | app/billing/metering.py:168-206 | once one attempt for a fact has finished, some worker created its row exactly when it was not there before the run |
| UsageProtocol.ThreeTurnsFinish | app/billing/metering.py:104-206 | three completed steps of its own finish a worker, whatever others do in between |
| Ledgers.Ledger.RecordUsage | app/billing/metering.py:104-206 | the log and the report are those of the atomic attempt |
| Ledgers.Ledger.RecordAdjustment | app/billing/metering.py:209-242 | a correction is an attempt keyed by its text, actor and quantity, marked as an adjustment |
| Ledgers.Ledger.RebuildSummary | app/billing/metering.py:394-450 | one row becomes the log's figures, or only its count if it is closed; nothing else changes |
| Ledgers.Ledger.RebuildAllSummaries | app/billing/metering.py:453-465 | every metric's row of the period is rebuilt in turn |
| Ledgers.Ledger.FinalizePeriod | app/billing/metering.py:468-493 | every metric's row is rebuilt and then closed |
| Ledgers.FiguresAreTheLogs | app/billing/metering.py:247-309 | those figures are the log's total, never below zero, the plan's allowance, the least overage covering the excess, and its price |
| Ledgers.RebuildIsFresh | app/billing/metering.py:402-450 | after a rebuild an open row shows the log's figures, a closed one its old figures, and both the current count and what was announced before; a new row is open and has announced nothing |
| Ledgers.RebuildOneRow | app/billing/metering.py:394-450 | rebuilding one row does to it what rebuilding the period does, and nothing to any other |
| Ledgers.FinalizeIsFresh | app/billing/metering.py:468-493 | closing gives the same, closed |
| Ledgers.FinalizeRow | app/billing/metering.py:482-488 | finalizing changes exactly the period's rows, closes them all, and leaves the log and every other row alone |
| Ledgers.RebuildAndFinalizeIdempotent | app/billing/metering.py:394-493 | rebuilding or finalizing twice is doing it once |
| Ledgers.RunKeepsLog | app/billing/metering.py:11-20 | no run of recording, adjusting, rebuilding and finalizing loses, doubles or corrupts a log row |
| Ledgers.RunKeepsFinalized | app/billing/metering.py:439-442 | a row that is closed keeps its figures and stays closed through every run |
| Ledgers.FinalizedFiguresAreForever | app/billing/metering.py:405-409 | in every run a row that ends closed was closed by one finalizing step and still shows the figures the log gave at that step |
| Ledgers.ClosedOnce | app/billing/metering.py:485-488 | that closing step is unique |
| Reconciliation.CheckSummaryDrift | app/billing/reconciliation.py:138-183 | the loop reports what the drift specification lists |
| Reconciliation.CheckNegative | app/billing/reconciliation.py:186-212 | the loop reports what the negative-total specification lists |
| Reconciliation.DriftReports | app/billing/reconciliation.py:149-183 | the report holds exactly an entry for each missing row of a positive total, and for each row that differs from the total, with both figures and financial exactly if closed |
| Reconciliation.NegativeReports | app/billing/reconciliation.py:186-212 | the other holds exactly an entry for each total below zero, with that total, as financial |
| Reconciliation.ReportedOnce | app/billing/reconciliation.py:138-212 | each metric at most once, in the order of the metrics |
| Reconciliation.CleanIffCachedExactly | app/billing/reconciliation.py:138-212 | both checks find nothing exactly when every metric's cached quantity is the exact signed sum of the log, or there is no row and the sum is zero |
| Reconciliation.DriftAfterRebuild | app/billing/reconciliation.py:298-331 | right after a rebuild the drift report lists exactly the closed rows whose log moved on, as financial |
| Reconciliation.RebuildClearsDrift | app/billing/reconciliation.py:298-331 | with no closed row a rebuild clears the report |
| Reconciliation.LateUsageIsReported | app/billing/metering.py:405-409 | usage that changes a total after its period closed shows in the report with both totals |
| Hooks.OnCallFinalized | app/billing/hooks.py:69-145 | one callback writes the call's row unless the call has one or did not last, and says whether it wrote |
| Hooks.FirstLastingIsFirst | app/billing/hooks.py:92-95 | the callback that counts for a call is its first with a nonzero length |
| Hooks.ChargeOfCall | app/billing/hooks.py:69-145 | after any callbacks a call's row is the one it had before, or else that of the first callback that counts: its tenant, its period, its seconds |
| Hooks.OneChargePerCall | app/billing/hooks.py:96-125 | over all periods the tenant's voice total grows by one charge per distinct call, whatever the repeats and the order |
| Hooks.EachPeriodIsChargedItsCalls | app/billing/hooks.py:98-115 | each period's voice total grows by the charges of exactly the unbilled calls whose first lasting callback fell in it, and no other total of any tenant, metric or period moves |
| Hooks.DeliveryOrderIsIrrelevant | app/billing/hooks.py:80-89 | callbacks that agree on each call's length can be delivered in any order without changing any charge or the total |
| Hooks.WrittenAtMostOnce | app/billing/hooks.py:93-95 | at most one callback per call answers that it wrote |
| Entitlements.EntitledExactlyWhen | app/billing/entitlements.py:111-126 | every tenant is in service but one whose subscription is canceled, incomplete, expired incomplete or paused |
| Entitlements.WarnedExactlyWhen | app/billing/entitlements.py:240-259 | within a positive allowance the answer is a warning exactly from 80 percent on, rounded half-even to tenths; it carries the allowance and the position asked about |
| Entitlements.CallGoesThroughExactlyWhen | app/billing/hooks.py:252-291 | a call goes through exactly when enforcement is off, the lookup failed, usage is unlimited, or the tenant is in service and has no known plan, metered overage, or room for 120 more seconds |
| Entitlements.GateForesees | app/billing/entitlements.py:174-275 | with overage off, a request is let through only if recording it stays within the allowance, and, for a total that is not negative, whenever it would |
| Entitlements.OverageForeseen | app/billing/entitlements.py:174-275 | with overage on, the gate says overage exactly when the summary rebuilt after the recording bills some |
| Entitlements.DecisionsAreMonotone | app/billing/entitlements.py:174-275 | more usage or a larger request is never judged more leniently |
| Entitlements.ExposureStaysCapped | app/billing/hooks.py:252-291 | usage plus what calls in flight may still run never passes the cap |
| Entitlements.SpendingCap | app/billing/hooks.py:252-291 | with overage off and only gated calls of at most L seconds on k lines, usage never exceeds max(initial, included - 120 + k L) |
| Entitlements.ThresholdCrossed | app/billing/entitlements.py:471-523 | the loop makes one look: the highest threshold reached and not yet announced, remembered in the row if there is one |
| Thresholds.PercentReachesByRounding | app/billing/metering.py:324-328 | the integer test is rounding the percentage half-even to tenths and comparing |
| Thresholds.LateExactlyWhen | app/billing/periods.py:239-254 | the clamped fraction passes 0.66 exactly when the elapsed time passes 0.66 of the period |
| Entitlements.AnnouncesExactlyWhen | app/billing/entitlements.py:496-523 | a look announces 100 exactly when rounded usage reaches it and it was not announced, else 80 exactly when that is reached early in the period and nothing was announced |
| Entitlements.NothingAnnouncedWithoutAllowance | app/billing/entitlements.py:492-494 | a metric the plan does not include is never announced |
| Entitlements.AnnouncedAgain | app/billing/entitlements.py:496-523 | a concrete ledger without the row where every look announces 100 |
| Entitlements.AnnouncedAgainExactlyWithoutRow | app/billing/entitlements.py:496-523 | a look that announced is repeated exactly when the slot has no row |
| Entitlements.AnnouncedAtMostOnceEach | app/billing/entitlements.py:474-483 | in every run of recording, adjusting, rebuilding, finalizing and looking, a slot that has its row is told 80 then 100, one of them, or nothing, each only above what it was told before |
| Entitlements.ReachedIsAnnounced | app/billing/entitlements.py:506-522 | and what a look finds reached is by then announced |
| Entitlements.RowExistsExactlyWhen | app/billing/metering.py:434-438 | a slot has its row exactly from its first rebuild or finalization on |
| Calendar.AddMonths | app/billing/periods.py:96-109 | the month advances by exactly that many, the time stays, and the day is kept or clamped to the month's length |
| Calendar.TryAddMonths | app/billing/periods.py:96-109 | on datetimes the same, or an error exactly when the year leaves 1 to 9999 |
| Calendar.AddThenSubtract | app/billing/periods.py:96-109 | a month forward and back is the identity exactly when the next month is long enough |
| Calendar.LabelIsMonth | app/billing/periods.py:112-121 | two starts share a label exactly when they are in the same calendar month |
| Calendar.LabelReadsBack | app/billing/periods.py:112-128 | every label passes the label check and reads back as its year and month |
| Decimal.Examples | app/billing/periods.py:121-121 | numerals are written most significant digit first and padded with zeros |
| Calendar.MonthLengths | app/billing/periods.py:96-109 | the months have the lengths of the Gregorian calendar |
| Calendar.FourCenturies | app/billing/periods.py:96-109 | any four hundred years have 146097 days |
| Calendar.BeforeIsEarlier | app/billing/periods.py:45-53 | comparing instants field by field is comparing microseconds counted over that calendar |
| Periods.CalendarPeriodIsTheMonth | app/billing/periods.py:131-145 | the calendar period holds exactly the moments of its month |
| Periods.WalkDay | app/billing/periods.py:206-215 | the k-th start's day is the least of the anchor's day and the lengths of the months entered so far |
| Periods.WalkIsAddition | app/billing/periods.py:190-215 | the k-th start is anchor plus k months exactly when no month entered is shorter than the day that gives |
| Periods.WalkFromMonthEndDrifts | app/billing/periods.py:96-103 | the walk from 31 January reaches 28 March where month addition gives the 31st |
| Periods.WalkFinds | app/billing/periods.py:207-215 | exactly one period of the walk holds a moment, and its index is computed directly from the two dates |
| Periods.WalkTiles | app/billing/periods.py:45-53 | the walk's periods are contiguous, one month apart, disjoint, and cover all time from the anchor on |
| Periods.Project | app/billing/periods.py:190-217 | the bounded loop returns the directly computed period, the calendar month for a future anchor or beyond 600 steps, or the year error on exactly the dates of `WalkOverflows` |
| Periods.ResolvePeriod | app/billing/periods.py:148-229 | for every row and moment the answer ends after it starts, is labelled by its start and contains the moment, or is the year error for exactly the rows and moments of `PeriodOverflows` |
| Periods.ProviderDecides | app/billing/periods.py:165-171 | the provider's bounds are the answer whenever they hold the moment |
| Periods.RowDateDecides | app/billing/periods.py:173-187 | otherwise the answer is the projection from the provider's start, without one from the trial's, without one from the row's creation, whatever the later fields say, and without any the calendar month |
| Periods.RowDateOverflows | app/billing/periods.py:173-187 | the year error depends on the same date |
| Periods.ProjectionByDate | app/billing/periods.py:206-217 | that projection is the walk's period holding the moment among the first 600, and the calendar month after them |
| Periods.TrialComesFirst | app/billing/periods.py:179-183 | a tenant on trial from 15 January is billed 15 February to 15 March though the row is of 3 January |
| Periods.PeriodForContains | app/billing/periods.py:220-229 | what it answers contains the moment, whatever bounds are present, absent, stale, inverted or future |
| Periods.SharedLabelIsSharedPeriod | app/billing/periods.py:112-121 | along one anchor, within 600 steps, two moments share a label exactly when they share a period |
| Periods.EarlyAnchorClosedForm | app/billing/periods.py:190-215 | for anchor day at most 28 the bounds are anchor plus k and k + 1 months, k read off the two dates |
| Periods.TryPreviousPeriod | app/billing/periods.py:232-236 | the period before is well formed and ends where this one starts; only January of year 1 has none |
| Periods.PreviousUndoesStep | app/billing/periods.py:232-236 | it undoes a monthly step exactly when that step did not clamp |
| Periods.WalkFollows | app/billing/periods.py:206-215 | every step of the walk is such a monthly step |
| Periods.PreviousKeepsLabel | app/billing/periods.py:232-236 | clamped or not it is filed under the walk's label |
| Periods.OverflowsExactlyWhen | app/billing/periods.py:206-217 | projecting fails exactly when the anchor is in December 9999 or the answer would end after it; never when both dates are earlier |
| Periods.LastDecember | app/billing/periods.py:206-215 | an anchor on the 15th: the moments of that December that still have a period are those before the 15th |
| Auth.Service.RegisterFailure | app/auth/service.py:108-114 | the failure is counted, or the account is locked and the counter cleared |
| Auth.Service.AuthenticateUser | app/auth/service.py:119-204 | the whole table and outcome of one authentication |
| Auth.Service.IssueTokens | app/auth/service.py:209-230 | one refresh token and one access token are added, or nothing when the digest is taken |
| Auth.Service.LogIn | app/api/auth_routes.py:120-130 | authentication followed, when it succeeds, by issuing tokens |
| SignIn.LoginExactlyWhen | app/auth/service.py:103-204 | in terms of the account's row: a login succeeds exactly with the right password, no lock or one that is over, an active account and a serving tenant; what each other case is answered, and the whole row after each |
| SignIn.UnknownAddressExactlyWhen | app/auth/service.py:135-153 | a malformed address and one without an account change nothing |
| SignIn.FailuresLock | app/auth/service.py:108-114 | over any series of wrong passwords an open account counts each and is locked by exactly the one that reaches the limit, for one lockout from then |
| SignIn.LockIsNotProlonged | app/auth/service.py:155-162 | no attempt during a lock, and no other operation, moves its end or the count |
| SignIn.LockEnds | app/auth/service.py:103-105 | from its end on, the right password is let in exactly if account and tenant serve |
| SignIn.RunKeepsEmails | app/auth/service.py:369-373 | in every run no two accounts come to share an address, and none changes its own |
| Auth.Service.RotateRefreshToken | app/auth/service.py:233-295 | the whole state and outcome of one rotation |
| Auth.Service.RevokeRefreshToken | app/auth/service.py:298-307 | one unrevoked token is revoked, or nothing happens |
| Auth.Service.RevokeAllForUser | app/auth/service.py:310-328 | the loop revokes and counts exactly the user's unrevoked tokens, and bumps the version if asked |
| Auth.Service.CountActiveOwners | app/auth/service.py:333-342 | the number of active owners of a tenant |
| Auth.Service.AddUser | app/auth/service.py:345-394 | the whole table and outcome of creating a user |
| Auth.Service.AssignRole | app/auth/service.py:397-425 | the whole state and outcome of a role change |
| Auth.Service.Activate | app/auth/service.py:428-454 | the whole state and outcome of switching a user on or off |
| TokenRotation.RunKeepsInv | app/auth/service.py:209-328 | in every run a token is linked to its replacement exactly when it was used, links point to younger tokens of the same user, none is shared, and no access token is ahead of its user |
| TokenRotation.RotationHandsOver | app/auth/service.py:254-295 | rotation succeeds exactly for a live unexpired token of a serving user; it marks the old token used and linked and touches no other, the new token may be rotated until exactly its expiry, the new access token is accepted; a refused rotation changes nothing |
| TokenRotation.LoginHandsOut | app/auth/service.py:209-230 | a login hands its user one refresh token that may be rotated until exactly its expiry and one accepted access token, or nothing if the digest is taken |
| TokenRotation.RotatesAtMostOnce | app/auth/service.py:233-295 | in every run a refresh token rotates successfully at most once |
| TokenRotation.ReuseRevokesEverything | app/auth/service.py:254-263 | exactly presenting a spent or revoked token revokes every unrevoked token of its user, bumps that user's version and touches nothing else |
| TokenRotation.LogoutAllRevokesEverything | app/auth/service.py:310-328 | signing out everywhere does the same |
| TokenRotation.LogoutExactlyWhen | app/auth/service.py:298-307 | logging out succeeds exactly for an unrevoked token, revokes that one and nothing else, and otherwise does nothing |
| TokenRotation.LoggedOutNeverRotates | app/auth/service.py:254-307 | in every run a token that was logged out never rotates again but counts as reused |
| TokenRotation.OneLiveTokenPerLogin | app/auth/service.py:275-287 | in every run the tokens of one login form an acyclic chain with at most one unused unrevoked token |
| TokenRotation.ChainsStartAtLogins | app/auth/service.py:209-230 | in every run a token that replaced no other was handed out by a login of its user |
| TokenRotation.VersionRisesExactlyWhenBumped | app/auth/service.py:310-454 | a version rises by one exactly at a detected reuse, a logout everywhere, and a granted role or activity change |
| TokenRotation.BumpEndsAccess | app/auth/dependencies.py:92-104 | an access token issued before such an operation is refused from it on, in every later state |
| TokenRotation.AccessLastsExactly | app/auth/dependencies.py:92-104 | in every run an issued access token is accepted exactly while its user is active and no such operation has come since |
| TokenRotation.AcceptedIsWhatWouldBeIssued | app/auth/dependencies.py:92-104 | accepted claims are exactly those the row of an active user would be issued |
| TokenRotation.StaleForever | app/auth/dependencies.py:102-104 | an issued token behind its user's version is refused in every later state |
| Lockout.LockoutRateBound | app/auth/service.py:103-114 | with no successful login the wrong-password checks of one account in any window number at most limit * (floor(length / lockout) + 1) |
| Team.AlwaysAnOwner | app/auth/service.py:409-440 | a tenant with an active owner has one after every run |
| Team.OwnersAreOriginal | app/auth/rbac.py:109-130 | whoever holds the owner role after a run held it before |
| Team.NobodyClimbs | app/auth/rbac.py:104-130 | in a run whose actors start at or below a level under the owner's, nobody at that level or above is altered, nobody else reaches it, and no new user does |
| Team.TenantIsolation | app/auth/service.py:356-361 | actors outside a tenant can neither add to it nor change anyone's role or activity in it |
| Team.GuardsByRole | app/auth/rbac.py:104-130 | for every pair of roles, what may be handed out and whose holders may be changed |
| Team.OwnersCounted | app/auth/service.py:333-342 | the owner count is the number of the tenant's active owners |
| Team.CreatedExactlyWhen | app/auth/service.py:345-394 | a user is created exactly when tenant, role and a free acceptable address permit, as asked for, in the actor's tenant; which refusal each other case gets |
| Team.RoleChangedExactlyWhen | app/auth/service.py:397-425 | a role change is granted exactly by those guards and not to the last owner; the rows and tokens after it |
| Team.SwitchedExactlyWhen | app/auth/service.py:428-454 | the same of switching on and off |
| Team.ChangesTakeEffect | app/auth/service.py:414-445 | a granted change sets the row, bumps the version and, unless it reactivates, revokes every refresh token of the target |
| Stats.ErrorAboutFit | app/analytics/_stats.py:90-96 | any line's squared error is the fit's plus two squares |
| Stats.LeastSquares | app/analytics/_stats.py:79-101 | the fit minimises the squared error over all lines, is the only one that does, and has R-squared in [0, 1] |
| Stats.ExplainedExactly | app/analytics/_stats.py:98-100 | R-squared times the spread of y is that spread less the fit's error; it is 1 exactly when every point is on the line, and for varying y 0 exactly when the slope is |
| Stats.FitExists | app/analytics/_stats.py:85-94 | a fit exists exactly for at least two points, as many y as x, not all at one x |
| Stats.NoFitExactlyWhen | app/analytics/_stats.py:85-94 | which error each other input gets |
| Stats.TrendExists | app/analytics/forecast.py:74-79 | a series of two or more points always has a trend, and it is the least-squares line |
| Stats.MovingAverage | app/analytics/forecast.py:82-98 | at every position the running sum yields nothing until a window has filled and then that window's mean |
| Humanize.ReadsBack | app/agent/humanize.py:53-67 | a reader that accepts number words only in their order recovers every integer |
| Humanize.OrderMatters | app/agent/humanize.py:58-66 | that reader does not read parts in another order |
| Humanize.NumToWordsInjective | app/agent/humanize.py:53-67 | no two integers are spoken alike |
| Licensing.IssuedLicenseVerifies | app/billing/licensing.py:43-124 | with any readers that read back what was printed, verifying an issued licence gives exactly its fields when the keys agree on its digest, plan and tenant have no dot, there is a seat and it has not expired, and nothing otherwise |
| Licensing.PayloadInOrder | app/billing/licensing.py:43-54 | the payload is the prefix and the five fields in the documented order |
| Licensing.PayloadReadsBack | app/billing/licensing.py:43-54 | a printed payload reads back as its fields exactly when neither free-text field has a dot |
| Licensing.AcceptedIsSigned | app/billing/licensing.py:85-124 | with any readers, however lenient, an accepted token carries the digest of the very payload its fields come from, a seat, and time left |
| Licensing.RaisesExactlyWhen | app/billing/licensing.py:101-102 | an error instead of an answer exactly for a well-shaped body beside a signature that is not ASCII |
| Licensing.StrictIsFaithful | app/billing/licensing.py:81-93 | Base64, UTF-8 and decimal readers that read back whatever was printed exist: the strict ones do |
| Base64.DecodeEncode | app/billing/licensing.py:81-93 | bytes survive URL-safe Base64 |
| Base64.Alphabet | app/billing/licensing.py:81-93 | the digits are the URL-safe ones of section 5 of RFC 4648 |
| Base64.GroupIsOneNumber | app/billing/licensing.py:81-93 | three bytes and their four digits are one number, and short groups are zero-filled and padded |
| Base64.Vectors | app/billing/licensing.py:81-93 | vectors of section 10 of RFC 4648 |
| Utf8.DecodeEncode | app/billing/licensing.py:81-93 | text survives UTF-8 |
| Utf8.Example | app/billing/licensing.py:81-93 | the first example of section 7 of RFC 3629 |
| Availability.CheckAvailability | app/agent/functions.py:254-275 | the loop ends with the free places of the grid before closing, and offers the first three |
| Availability.SlotsAreTheFreePlaces | app/agent/functions.py:255-265 | a time is listed exactly when it is a place of the grid inside opening hours, clear of every busy interval, in the part of day asked for, and in the future when looked at |
| Availability.FreeExactlyWhen | app/agent/functions.py:255-265 | such a place begins a whole number of slots after opening, ends by closing, meets no busy interval, is before noon exactly for the morning, and is still to come |
| Availability.SlotsAscendDisjoint | app/agent/functions.py:270-275 | slots ascend and never share a moment, so those offered are the earliest |
| Availability.OverlapIsSharedMoment | app/agent/functions.py:258-258 | the overlap test holds exactly when a slot and a busy interval share a moment |

## Left out

- Calendar.AddMonths: years are not limited to 1..9999 there; `Calendar.TryAddMonths`, which the methods call, has the limit.
- Licensing.IssuedLicenseVerifies: which foreign signs, blanks and digits `int()` and the Base64 reader let pass is not modelled, because the results hold for any readers; the current time and the signing key are parameters.
- Entitlements.CheckMetric: the percentage is compared in exact arithmetic, not in binary floating point; messages and reasons are not modelled.
- Entitlements.ThresholdCrossed: the bounds of the period and the moment are places on one clock, and the fraction is compared in exact arithmetic, not in binary floating point.
- Entitlements.SpendingCap: the gate's check and the start of the call are one step, and a call counts as in flight from then on; the billing period does not change during the run.
- UsageProtocol.EveryScheduleIsSequential: a worker's insert is visible to others at once; a caller that rolls its whole transaction back after recording is not modelled.
- UsageProtocol.ThreeTurnsFinish: counts completed steps; nothing is committed inside the recording, so an insert can wait for another caller's transaction under the same key, and how long is not modelled.
- Corrections.TakenForExactlyWhen: the 160 characters a stored key may have (app/db/models.py:1748) are not a limit; what the database does with a longer one is not modelled.
- Auth.Service.RotateRefreshToken: one atomic step, although the code commits twice on the way; two requests interleaving inside one operation are not modelled, because the code states no locking.
- Auth.Service.AuthenticateUser: rehashing, last-login times and audit rows are not kept.
- Availability.CheckAvailability: a date that does not parse is answered before the search and is not modelled; times are counted on one clock, so a daylight-saving change inside opening hours is not modelled; a slot length of zero, on which the loop would not end, is excluded.
- Stats.LeastSquares: exact reals instead of floats.
- Summary timestamps, event metadata, source references and the tenant's display cache of minutes: carried by the rows but decided on by nothing modelled.
- Access-token expiry and signatures: only the row test that follows decoding is modelled.
- Orphan and period-bound checks, the reconciliation tick, plan seeding and price resolution: no further invariant.
- Feature limits, SMS and speech hooks: the same shape as what is modelled, with less state.
- Percentiles, smoothing, forecast bands and churn scores: single-body calculations.
- Routes, schemas, schedulers, providers, the live voice pipeline and the remaining telephony: outside these cores.
