# PingCast backend: a verified model

PingCast watches HTTP and TCP endpoints, opens incidents, alerts channels, and serves status pages, some under
customers' own domains. Its backend is a handful of small state machines over shared stores: every repository,
lock or stream call is one atomic step, and several processes and many goroutines interleave between the steps.
This project models those machines and proves what they keep in every run.

Two kinds of modules work together. A *machine* is a state, a datatype of actions and a total step function;
its theorems speak of `Exec`, the state after any list of actions, so they cover every interleaving, every
failing call and every crash. A *service* is a class with the fields the Go type updates and methods in the
form of the Go methods; each is proved to do what a function, or a run of the machine, says.
Methods state their results on the fields themselves, and where a machine models the same code call by call, an
undisturbed run of it is proved to do what the service does.

| modules | part of the system |
|---|---|
| `FounderCap`, `Billing` | the cap on founder seats: webhooks, the tagging transaction, plan changes outside its lock |
| `Fleet`, `Fencing`, `RateBound`, `LateDispatch`, `Pacing`, `LeaderScheduler` | leader election with an expiring lock, fenced dispatch, how often a monitor is checked |
| `LockedLoop` | the periodic jobs under a lock that is not extended |
| `Replica`, `OverlappingChanges` | the scheduler's registry, fed by the events of monitor changes, one by one and overlapping |
| `IncidentSerial`, `IncidentConcurrent`, `IncidentRecovery`, `IncidentLeftOpen` | the incident automaton, check by check and under any interleaving |
| `AlertFanout`, `LateHandlers` | concurrent delivery of alerts, retries, acknowledgement, redelivery, dead letters |
| `CustomDomains`, `OverlappingSweeps`, `LockedSweeps`, `HostnameCache`, `CertRenewal` | the life of custom domains, the routing cache, certificate renewal |
| `Cipher`, `KeyRotation`, `Base64`, `KeysEnv` | ciphertexts with key versions, rotation, the key-list setting |
| `AtlassianImport`, `IncidentTimeline`, `SslThresholds`, `ObjectCache`, `Breakers` | the importer, manual incidents, expiry alerts, the breaker and client caches |
| `Text`, `Wrappers` | trimming, lower-casing, lengths in bytes, optional values |

Times are integers. Clocks, random values, the network and the database enter as parameters: which call fails,
what a query answers, which nonce is drawn.

## What the proofs say about the code

Some promises hold as they stand. These hold only under a condition, which is stated exactly:

- **Founder cap.** "Never more active founders than seats" is false: upgrading a lapsed founder revives the seat
  before the tagging transaction looks, and if that transaction fails nothing corrects it. A run keeps the cap all
  through exactly when no step of it takes a seat while none is free, and two kinds of step take one: such an
  upgrade, and the commit of a founder tag for another pro user. The commit breaks the cap when a lapsed founder was
  revived after its transaction had counted, since the lock covers the count and not the plan writes. Founders
  without a pending tag never exceed the cap. A founder whose own subscription is updated while the cap is exactly
  full is counted against himself and re-tagged as retail.
- **Rate of checks.** The clock is read after the Extend that fences a dispatch, so an instance that stalls in
  between dispatches late. The fleet-wide bound needs one more publish per late dispatch. The bound without that
  term holds on all runs whose dispatches are stamped less than L after their Extend, with no Stop in between,
  exactly when L is at most the lock's lifetime.
- **Registry.** A change reads, writes and publishes in three steps. When changes overlap, the registry agrees about
  a monitor exactly when the event published last tells what the last write left. So an update that races with a
  delete makes the scheduler dispatch a monitor that no longer exists, and overlapping toggles leave it wrong exactly
  when an odd number of writes came after the one published last.
  All scheduler instances share one durable consumer, so an event reaches only one of them. The source mentions
  a periodic reload of monitors that would repair both; there is no code for it. The name limit that the error
  message gives in characters is counted in bytes.
- **Incidents.** An incident is open on a monitor that is up exactly when one of three steps came and nothing ended
  it since. Without any fault it is left open by a slow failure that a success overtakes, or by a success that
  had not read down; by a fault, already with a single worker and one failing call, when that call is the one that
  closes it, and further successes never do. Recovery closes the newest open incident it reads, also one opened by hand.
- **Status flips.** `UpdateStatus` is promised to be atomic, but its query reads the old status from the statement's
  snapshot before it takes the row. Two successes can both read down and both announce a recovery. The up alerts,
  published and under way, are at most the successes that read down, and at most the moves from down to up exactly
  as long as no such write is overtaken with nothing to spare. The published ones are at most the recoveries that
  read an open incident, and just as many when nothing fails and nothing is under way.
- **Alerts.** A send is tried three times, and a try can report an error about an event that has arrived: a webhook
  that answers 500 after acting, a mail server that fails at QUIT. And a handler that outlasts the acknowledgement
  wait is overtaken by a redelivery. Nobody ever receives an event twice, whatever else the channels do, exactly
  when no handler is late while another delivery can follow, and no such try is made while another try can follow,
  in the same delivery or the next. That a send *succeeds* twice depends on the late handlers alone.
- **Custom domains.** A sweep lists at most 100 rows, oldest first, so a batch of hopeless rows starves every
  newer one. Active domains stay active until deleted, on all runs whose sweeps last less than L, exactly when L
  is at most the lifetime of the sweep's lock, which is two minutes; a sweep of 100 slow hosts lasts longer.
  The hostname cache is what the refresh that stored last had read, which can be an older map.
- **Importer.** An export in which a monitor gets an incident without `resolved_at`, and then a later one, is
  always refused, because the unique index allows one open incident per monitor.
- **Manual incidents.** The transition is checked before the transaction. Two changes that both pass keep the
  timelines coherent exactly when they are about different incidents or the second could have followed the first.
- **Expiry alerts.** Scans a fixed gap apart never skip an alert exactly when the gap is at most 24 hours, and
  never repeat one exactly when it is at least 24 hours.
- **Breakers.** The evictor reads the last access and removes the key in two steps. It removes a breaker
  accessed within the hour exactly when a call in between was the last to touch it; the next call then gets another.
- **Re-encryption.** Only the version byte is looked at, so a record passes for settled although it cannot be read
  exactly when it names the primary version and is too short or does not open.

## Model

| member | source | states |
|---|---|---|
| FounderCap.CapHoldsForSettledFounders | internal/app/billing.go:60-78 | in every interleaving of webhooks, failures and cancellations, founders with no pending tag never exceed the cap, and all active founders exceed it by at most the lapsed founders upgraded and not yet re-tagged |
| FounderCap.CapHoldsWithoutRevival | internal/app/billing.go:60-78 | the plain cap holds on every run in which no lapsed founder is upgraded |
| FounderCap.CapHoldsWithoutCancellations | internal/adapter/http/webhook.go:100-143 | from a store without lapsed founders, the plain cap holds on every run without cancellations |
| FounderCap.UpgradeBreaksCapExactly | internal/app/auth.go:130-135 | an upgrade breaks the plain cap if and only if it revives a lapsed founder and no seat is free |
| FounderCap.StepBreaksCapExactly | internal/app/billing.go:60-78 | from within the cap, a step of any kind breaks it if and only if no seat is free and it upgrades a lapsed founder or commits the founder tag of a pro user who does not carry it |
| FounderCap.CapKeptExactly | internal/app/billing.go:60-78 | a run, with any failing and any lost calls, keeps the plain cap all through if and only if it takes no such step |
| FounderCap.CommitBreaksAfterRevival | internal/app/billing.go:62-76 | in any run a commit breaks it only while another lapsed founder has been upgraded and not yet re-tagged |
| FounderCap.CommitCanBreakCap | internal/app/billing.go:60-78 | from any store with one seat free, a purchase by an untagged user and the renewal of a lapsed founder can keep the cap at every step up to a commit that breaks it |
| FounderCap.PlainPromiseExactly | internal/app/billing.go:60-78 | the plain cap is safe on all runs if and only if there are no more accounts than seats, or no seats and no founder tags |
| FounderCap.StepKeepsInv | internal/app/billing.go:62-76 | each atomic step keeps mutual exclusion of the counting transactions and the room that a chosen founder tag was counted against |
| Billing.UserRepo.CountActiveFounderSubscriptions | internal/sqlc/queries/users.sql:43-48 | a pass over the rows counts exactly the users on the pro plan with the founder tag, each once |
| Billing.BillingService.FounderStatus | internal/app/billing.go:33-43 | a seat is reported available exactly when the tagging transaction would grant one now, and granting it to anyone keeps the cap; nothing is reported when the count fails |
| Billing.BillingService.TagFromWebhook | internal/app/billing.go:60-78 | the transaction is a run of the protocol; it commits exactly when no call of it fails; then the row carries retail for a retail request, and for a founder request founder if fewer users than seats are pro and founder, else retail; plan and other rows stay |
| Billing.WebhookHandler.Activate | internal/adapter/http/webhook.go:101-130 | an activating webhook upgrades, links, then tags, as one run of the protocol; fully successful without the founder variant it leaves pro and retail; its answer is an error exactly when the upgrade or the link fails |
| Billing.WebhookHandler.HandleLemonSqueezy | internal/adapter/http/webhook.go:94-144 | which events do what, row by row: a cancellation leaves the free plan and the tag, an activation the pro plan and the tag of the tagging transaction; the rows are those of a run of the protocol, and only failed plan writes are answered with 500 |
| Billing.RenewalAtFullCapLosesTheSeat | internal/app/billing.go:69-74 | an event for a sitting founder keeps the seat if and only if the cap is not exactly full |
| Fencing.DispatchFollowsExtend | internal/adapter/checker/leader_scheduler.go:58-86 | whoever is about to dispatch extended the lock, while holding it, in the same tick |
| Fencing.SteppedDownMustLock | internal/adapter/checker/leader_scheduler.go:88-96 | an instance that has stepped down acquires the lock afresh before it leads again |
| Fencing.LeadsAgainByLock | internal/adapter/checker/leader_scheduler.go:65-96 | once the flag is down, also while a dispatch is still under way, only a fresh Lock raises it |
| Fencing.StopLetsTheDispatchFinish | internal/adapter/checker/leader_scheduler.go:98-160 | a Stop in the middle of a tick lets the dispatch go out, without the lock, and leaves a follower |
| Fencing.FailedExtendMustLock | internal/adapter/checker/leader_scheduler.go:70-80 | after a failed Extend the next dispatch needs a fresh Lock |
| Fencing.GrantsOfDifferentInstancesDisjoint | internal/adapter/checker/leader_scheduler.go:58-96 | the Extend-to-expiry windows of different instances never overlap, however many believe they lead |
| Fencing.OnTimeDispatchInsideGrant | internal/adapter/checker/leader_scheduler.go:70-86 | a dispatch made while its instance still holds the lock falls in a window of that instance |
| RateBound.RegistrationSpacing | internal/adapter/checker/leader_scheduler.go:98-121 | two publishes of one registration come from one instance and are at least its interval apart |
| RateBound.FleetRateBound | internal/adapter/checker/leader_scheduler.go:98-121 | over any window, all instances together publish a monitor at most width / interval times plus the lock tenures, re-registrations and late dispatches in the window |
| LateDispatch.PlainBoundExactly | internal/adapter/checker/leader_scheduler.go:70-105 | for every lifetime and interval, the bound without late dispatches holds on all runs whose dispatches are stamped less than L after their Extend, with no Stop in between, if and only if L does not exceed the lock's lifetime |
| LateDispatch.PromptIsInTime | internal/adapter/checker/leader_scheduler.go:58-86 | on such runs every dispatch is made while its instance still holds the lock |
| Pacing.SuccessivePublishesPaced | internal/adapter/checker/leader_scheduler.go:98-121 | in any run of the fleet, successive publishes of one registration are at least its interval apart, and less than interval + d when its instance goes on dispatching within d and publishes go through |
| LeaderScheduler.Scheduler.Add | internal/adapter/checker/leader_scheduler.go:45-49 | is the Add of the fleet machine in every fleet the instance is part of; the monitor is due at once exactly if not paused, the others are untouched |
| LeaderScheduler.Scheduler.Remove | internal/adapter/checker/leader_scheduler.go:51-55 | is the Remove of the fleet machine; no later dispatch publishes the monitor, the others are untouched |
| LeaderScheduler.Scheduler.DispatchDueChecks | internal/adapter/checker/leader_scheduler.go:98-121 | publishes each monitor once that is unpaused and was never stamped or stamped an interval ago or longer, and stamps exactly those whose publish went through; nothing else changes |
| LeaderScheduler.Scheduler.TryAcquireLeadership | internal/adapter/checker/leader_scheduler.go:88-96 | leads exactly when the lock was free or expired and the answer arrived |
| LeaderScheduler.Scheduler.Tick | internal/adapter/checker/leader_scheduler.go:65-86 | one tick refines the fleet machine in every fleet it can be part of, and what it publishes is what the fleet logs; the flag, the lock and every registration afterwards, case by case |
| LeaderScheduler.Scheduler.Stop | internal/adapter/checker/leader_scheduler.go:152-160 | is the Stop of the fleet machine: gives up the flag, and the lock exactly when it is still held |
| LockedLoop.ShortJobsNeverOverlap | internal/bootstrap/scheduler.go:217-244 | jobs shorter than the lock's lifetime never run at the same time |
| LockedLoop.LongJobsOverlap | internal/bootstrap/scheduler.go:217-244 | a job that reaches the lifetime can be joined by another |
| LockedLoop.EndMakesRoom | internal/bootstrap/scheduler.go:217-244 | a job that ends in time makes room at once for the next tick of any instance |
| LockedLoop.CrashIsOutlived | internal/bootstrap/scheduler.go:217-244 | after a crash any instance can start exactly from the expiry of the lock on |
| Replica.ReplicaAgrees | internal/bootstrap/scheduler.go:90-118 | after any history of changes, with every event delivered in order and possibly repeated, the scheduler dispatches exactly the monitors that exist unpaused, with their settings |
| Replica.AgreesExactly | internal/bootstrap/scheduler.go:103-118 | for any deliveries, agreement about a monitor holds if and only if the last delivered event about it says what the last published one says |
| Replica.LastEventDecides | internal/bootstrap/scheduler.go:103-118 | only the last event about a monitor matters to what is dispatched |
| Replica.TableFollowsEvents | internal/app/monitoring.go:509-524 | the published events alone determine which rows are to be dispatched |
| OverlappingChanges.OverlapsAgreeExactly | internal/app/monitoring.go:399-524 | after any interleaving of changes, with failing and lost calls, the registry agrees about a monitor if and only if the event published last tells what the last write left; an event tells what its own write left unless that found its row gone |
| OverlappingChanges.LastWritePublishedLastAgrees | internal/app/monitoring.go:399-524 | in particular when the last write found its row and is the one published last |
| OverlappingChanges.TogglesAgreeExactly | internal/app/monitoring.go:459-486 | with any number of overlapping toggles, if and only if an even number of writes came after the one published last |
| OverlappingChanges.UndisturbedIsPerform | internal/app/monitoring.go:300-486 | with nothing in between, the three steps of a change do what it does in one; a failed read or a write without effect changes nothing, a lost write is stored and not published |
| OverlappingChanges.OnlyOwnersWrite | internal/sqlc/queries/monitors.sql:41-60 | in any state, a step changes or removes a row only as its owner's own write about it, and only a create brings a row |
| Replica.UpdateRacingDeleteRevives | internal/app/monitoring.go:399-458 | an update that read before a delete revives the monitor exactly when it does not leave it paused |
| Replica.UndeliveredLastEvent | internal/adapter/nats/subscriber.go:30-39 | an instance that misses the last event about a monitor is right exactly when that event changed nothing to dispatch |
| Replica.MonitoringService.CreateMonitor | internal/app/monitoring.go:300-388 | accepts exactly below the quota and within the limits of name, interval and threshold; the row holds the request with the defaults, the event tells the row; a refused configuration, a failed insert or a failed channel binding leaves nothing |
| Replica.MonitoringService.UpdateMonitor | internal/app/monitoring.go:399-439 | each requested field is the one in the row and in the event, the name trimmed and the interval not below the plan's minimum; all other fields, the owner and the kind stay; accepted exactly for the owner and within the limits, else nothing changes |
| Replica.MonitoringService.PatchFields | internal/app/monitoring.go:405-424 | the field-by-field assignments: requested fields as requested, the others, the owner and the kind as they were |
| Replica.MonitoringService.DeleteMonitor | internal/app/monitoring.go:441-458 | deletes an owned monitor, publishes an event that carries only its id, and reports success also when the publish fails |
| Replica.MonitoringService.TogglePause | internal/app/monitoring.go:460-482 | flips the flag of an owned monitor and publishes a pause or a resume |
| Replica.SchedulerReplica.constructor | internal/bootstrap/scheduler.go:88-97 | the registry starts with exactly the rows that are not paused, as the table describes them |
| Replica.SchedulerReplica.OnMonitorChanged | internal/bootstrap/scheduler.go:103-118 | each event registers its monitor as described or removes it |
| IncidentSerial.SerialRefinement | internal/app/monitoring.go:527-643 | for any history and any cooldown and maintenance answers, the alerts after each check equal a stream defined on the history alone |
| IncidentSerial.OneDownAlertPerRun | internal/app/monitoring.go:570-626 | a run of failures raises exactly one down alert, at its first failure at or past the threshold without cooldown or ongoing maintenance, or none if there is none |
| IncidentSerial.AlertsAlternate | internal/app/monitoring.go:570-643 | alerts strictly alternate down and up, each up naming the incident of the down before it |
| IncidentSerial.OpenOnlyWhileDown | internal/app/monitoring.go:570-643 | an incident is open only while the monitor is down, and never two at once |
| IncidentSerial.TrailingFailuresIsRunLength | internal/sqlc/queries/check_results.sql:6-16 | the failure count is the position in the current run of failures |
| IncidentSerial.MonitoringService.ProcessCheckResult | internal/app/monitoring.go:527-568 | one check moves the rows as the automaton does: a failure during cooldown or maintenance changes neither incidents nor alerts, one at or past the threshold with nothing open opens and alerts, a success after down closes the newest open one |
| IncidentSerial.MonitoringService.HandleDown | internal/app/monitoring.go:570-626 | opens an incident and alerts unless below threshold, in cooldown, in maintenance, or one is open; a failed maintenance query does not silence |
| IncidentSerial.MonitoringService.HandleRecovery | internal/app/monitoring.go:628-643 | resolves the newest open incident and announces it, or does nothing |
| IncidentConcurrent.DownAlertsOncePerIncident | internal/app/monitoring.go:546-642 | under any interleaving, failure and redelivery, an incident gets at most one down alert, only automatic ones get any, and every alert names an incident that exists |
| IncidentConcurrent.AloneIsProcess | internal/app/monitoring.go:528-643 | a worker that nothing disturbs, from any state, leaves results, status, incidents and alerts as the serial automaton does |
| IncidentConcurrent.InsertMovesCount | internal/sqlc/queries/check_results.sql:6-16 | a result that comes in late counts by its time: before the latest success it changes no count, and a success ends the run where it falls |
| IncidentRecovery.UpAlertsBounded | internal/sqlc/queries/monitors.sql:46-52 | up alerts, published and under way, are at most the status writes to up that read down, and exceed the moves from down to up by at most the overtaken ones among these |
| IncidentRecovery.FlipBoundKeptExactly | internal/sqlc/queries/monitors.sql:46-52 | a run keeps the up alerts, published and under way, within the moves from down to up all along if and only if none of its writes is overtaken with nothing to spare |
| IncidentRecovery.PublishedUpsAreFinds | internal/app/monitoring.go:628-660 | the up alerts published are at most the recoveries that read an open incident, and exactly as many when every call succeeds and nothing is under way |
| IncidentRecovery.UpAlertsAtMostFlips | internal/port/repository.go:56-57 | with atomic status updates, or whenever none is overtaken, up alerts never outnumber the moves from down to up |
| IncidentRecovery.TwoUpAlertsForOneFlip | internal/app/monitoring.go:546-642 | without any fault one move from down to up can be announced twice |
| IncidentConcurrent.EveryIncidentPrecededByFailures | internal/app/monitoring.go:570-608 | every automatic incident was preceded by a moment with at least as many trailing failures as its threshold |
| IncidentLeftOpen.OpensExactly | internal/app/monitoring.go:546-642 | a step puts an open incident beside a monitor that is up if and only if it creates one while up, writes up over an open one, or is a user opening one while up |
| IncidentLeftOpen.OpenWhileUpExactly | internal/app/monitoring.go:546-642 | after any run, with any failures, an incident is open on a monitor that is up if and only if such a step came and nothing closed it or wrote down since |
| IncidentLeftOpen.NeverOpenWhileUpExactly | internal/app/monitoring.go:546-642 | a run never shows it if and only if it takes no such step |
| IncidentLeftOpen.LeftOpenExactly | internal/app/monitoring.go:546-642 | when all calls succeed and nothing is under way, it is left if and only if a step came that no recovery follows up: created while up, written up by a success that had not read down, or opened by hand |
| IncidentLeftOpen.FailedResolveLeavesOpen | internal/app/monitoring.go:628-643 | when the call of the only worker under way to close the incident fails after up was written, it stays open at rest |
| IncidentLeftOpen.OneFaultLeavesOpen | internal/app/monitoring.go:628-643 | from the empty store a single worker gets there: a failure, a success, every call going through but that last one |
| IncidentLeftOpen.SuccessesChangeNothing | internal/app/monitoring.go:546-568 | what is left open stays open, without an alert, through any number of successes |
| IncidentLeftOpen.OvertakenFailureLeavesOpen | internal/app/monitoring.go:546-642 | it is left without any fault when a success overtakes a slow failure |
| IncidentRecovery.RecoveryTakesExactly | internal/sqlc/queries/incidents.sql:16-21 | a recovery turns to an incident, automatic or opened by hand, exactly when it reads it as the newest open one |
| IncidentRecovery.RecoveredExactly | internal/app/monitoring.go:628-643 | only incidents so read are announced as recovered; when all calls succeed and nothing is under way, exactly those |
| IncidentRecovery.UnannouncedExactly | internal/app/monitoring.go:570-643 | an incident has no down alert if and only if it was opened by hand or its publish never took effect; on undisturbed runs a recovery without a down alert is announced exactly for incidents opened by hand that a recovery read |
| IncidentRecovery.WithoutHandsOnlyAutomatic | internal/app/monitoring.go:628-643 | unless users open incidents by hand, only automatic ones are announced as recovered |
| AlertFanout.SendLands | internal/adapter/channel/retry.go:25-38 | a send succeeds if and only if one of its three tries does; unless a try is lost it arrives once when it succeeds and never when it fails |
| AlertFanout.LandedAre | internal/adapter/channel/retry.go:25-38 | a send arrives once for each of its three tries that is made and arrives |
| AlertFanout.RecipientsAre | internal/app/alert.go:64-98 | those who are tried are exactly the enabled channels of the monitor, each as often as it is listed, or those of its user when the monitor lists none at all |
| AlertFanout.AlertService.Send | internal/adapter/channel/retry.go:25-38 | up to three tries, each one that arrives counted, also when it reports an error |
| AlertFanout.AlertService.FanOut | internal/app/alert.go:83-146 | for any order of completion, sent + failed is the number of enabled channels, the failed ids are exactly those that failed, and what arrived is what the tries of each channel say |
| AlertFanout.AlertService.WriteToDlq | internal/app/alert.go:173-204 | leaves one row per attempt that takes effect, up to the first of three that succeeds |
| AlertFanout.CopiesAre | internal/app/alert.go:173-204 | one row per attempt that is made and takes effect; never more than one unless a write that took effect reports an error, and none exactly when no attempt takes effect |
| AlertFanout.AlertService.Deliver | internal/app/alert.go:83-167 | fails exactly when somebody failed and nobody succeeded; every row of an acknowledged failure names exactly the failed channels |
| AlertFanout.AlertService.Handle | internal/app/alert.go:64-167 | monitor channels first, then the user's; every enabled one, and no disabled one, receives what its tries say and is in every new row exactly when none went through; acknowledged exactly when the queries answer and somebody was reached or nobody is enabled |
| AlertFanout.NoChannelTwice | internal/adapter/nats/subscriber.go:84-117 | over deliveries of one event that follow each other no channel's send succeeds twice, and none has succeeded while the event is unacknowledged |
| AlertFanout.NobodyReceivesTwice | internal/adapter/nats/subscriber.go:84-117 | nor does a channel receive it twice, or before it is acknowledged, as long as no try reports an error about an event that has arrived |
| LateHandlers.NeverTwiceExactly | internal/adapter/channel/retry.go:25-38 | for any late handlers and any tries that arrive but report an error, nobody ever receives an event twice, whatever else the channels do, if and only if no handler is late while another delivery can follow and none of those tries can be followed by another, of its delivery or of the next |
| LateHandlers.SendsOnceExactly | internal/adapter/nats/subscriber.go:85-117 | no channel's send ever succeeds twice, whatever the channels do, if and only if no handler is late while another delivery can follow |
| LateHandlers.NobodyReceivesTwiceUnlessLate | internal/adapter/nats/subscriber.go:85-117 | late handlers that send nothing with success do no harm where no lost try can be followed by another |
| LateHandlers.NoChannelTwiceUnlessLate | internal/adapter/nats/subscriber.go:85-117 | late handlers that send nothing with success never make a send succeed twice |
| AlertFanout.OnlyTheLastDelivers | internal/adapter/nats/subscriber.go:99-117 | where deliveries that are not acknowledged contribute nothing, as successful sends never do, everything came with the last one |
| AlertFanout.Consume | internal/app/alert.go:64-204 | delivers as often as the stream asks; what has arrived is what all these deliveries sent; once acknowledged every enabled channel's send has succeeded and arrived, or the channel is in every dead-letter row, or none could be written; a channel that is nowhere enabled receives nothing and is in no row |
| AlertFanout.WherePartitions | internal/app/alert.go:131-167 | the successes and the failures together are all that were tried |
| CustomDomains.ReachedExactly | internal/sqlc/queries/custom_domains.sql:20-28 | a sweep reaches a row if and only if it is not active and fewer than 100 older rows are not |
| CustomDomains.SweepAt | internal/app/custom_domain.go:137-207 | a sweep moves each row it reaches as its snapshot and the calls about it say, and no other: validated exactly by a 200 answer that is the token with white space around it, active by a certificate, failed otherwise |
| CustomDomains.GoodSweepLowersRank | internal/app/custom_domain.go:137-157 | with successful calls a sweep lowers the sum of ranks by one per row reached |
| CustomDomains.SweepsActivateOldest | internal/app/custom_domain.go:137-157 | with successful calls 2 n sweeps activate the n oldest batches, so two sweeps do for up to 100 rows |
| CustomDomains.StarvedBehindFailures | internal/sqlc/queries/custom_domains.sql:20-28 | behind 100 older rows that never succeed a row never moves |
| OverlappingSweeps.ActiveIsCertified | internal/app/custom_domain.go:162-254 | however sweeps overlap, an active domain was proved, by a call whose probe brought the token of its row, then written validated, then given a certificate |
| OverlappingSweeps.MarksAreMade | internal/app/custom_domain.go:162-254 | each of these marks was left by a call or a write of exactly that kind, on a row in hand |
| OverlappingSweeps.AloneIsSweep | internal/app/custom_domain.go:137-207 | a sweep that nothing disturbs, call by call, leaves the rows that the sweep of the service leaves |
| OverlappingSweeps.OneRowPerHost | internal/database/migrations/024_create_custom_domains.sql:16-16 | in every run no two rows have the same host |
| OverlappingSweeps.ActiveUntilDeleted | internal/app/custom_domain.go:137-260 | without overlap, an active domain stays active until it is deleted |
| OverlappingSweeps.DemotesExactly | internal/app/custom_domain.go:162-260 | a step takes an active domain back if and only if it is a write other than active that a sweep had decided on for it, or its owner's deletion |
| LockedSweeps.StaysActiveExactly | internal/bootstrap/scheduler.go:185-191 | active domains stay active until deleted on all runs, on any number of instances, whose sweeps last less than L if and only if L does not exceed the lifetime of the lock |
| LockedSweeps.PromptIsSequential | internal/bootstrap/scheduler.go:217-244 | such sweeps never overlap |
| HostnameCache.CacheIsASnapshot | internal/app/custom_domain.go:123-132 | under concurrent refreshes and failed reads the cache is the empty map or the active hostnames at some past moment |
| HostnameCache.CacheIsLastStored | internal/app/custom_domain.go:123-132 | after any run the cache is the map that the refresh which stored last had read, or empty |
| HostnameCache.CacheIsCurrentExactly | internal/app/custom_domain.go:123-132 | the cache is current if and only if that map is the current one |
| HostnameCache.CacheIsCurrent | internal/app/custom_domain.go:123-132 | in particular when no change came after that read |
| HostnameCache.OlderRefreshCanWin | internal/app/custom_domain.go:123-132 | two overlapping refreshes can leave the older map for good |
| HostnameCache.CustomDomainService.LookupHostname | internal/app/custom_domain.go:106-111 | with a current cache, the answer is that of a case-insensitive search of the rows; names that differ in case only are answered alike |
| HostnameCache.CustomDomainService.RequestDomain | internal/app/custom_domain.go:77-87 | stores a new pending row under the trimmed lower-case name exactly when it is acceptable and free |
| HostnameCache.CustomDomainService.DeleteDomain | internal/app/custom_domain.go:95-101 | removes exactly the owner's row of that id and reloads the cache |
| HostnameCache.CustomDomainService.RefreshHostnameCache | internal/app/custom_domain.go:123-132 | undisturbed it is a read and a store of the cache machine and leaves the cache current; a failed read is no step at all |
| HostnameCache.CustomDomainService.RunValidationOnce | internal/app/custom_domain.go:137-157 | one sweep over its snapshot, each row reached moving as its own probe, certificate and write say, and a reload when a row became active |
| HostnameCache.CustomDomainService.ValidateDns | internal/app/custom_domain.go:162-207 | the row becomes validated exactly when the probe answers 200 with white space, the token, white space, and failed otherwise; no other row changes |
| HostnameCache.CustomDomainService.ProvisionCert | internal/app/custom_domain.go:243-254 | active after a certificate was issued and the write went through; failed when issuing fails |
| CertRenewal.NeverExpired | internal/app/custom_domain.go:209-238 | whatever fails when, a certificate with at most f missed renewals in a row is valid until the next run if f + 1 gaps fit in the head start |
| CertRenewal.TwentyEightDailyFailures | internal/app/custom_domain.go:209-238 | with daily runs twenty-eight failures in a row are survived |
| CertRenewal.SafeExactly | internal/app/custom_domain.go:218-218 | tolerating f failures in a row is safe if and only if f + 1 gaps are shorter than the head start |
| CertRenewal.LookedAfterExactly | internal/sqlc/queries/custom_domain_certs.sql:21-29 | in any history a host is looked after exactly from an activation until it stops being active: renewals neither add nor drop one |
| CertRenewal.CertRepo.ListExpiringHostnames | internal/sqlc/queries/custom_domain_certs.sql:21-29 | lists exactly the active hosts whose certificate expires before the given time |
| CertRenewal.CustomDomainService.RunRenewalsOnce | internal/app/custom_domain.go:214-238 | each active host that expires within thirty days gets what was issued for it; a failure of one host, or of the listing, leaves all others as they should be |
| Base64.RoundTrip | internal/crypto/crypto.go:98-102 | decoding undoes encoding for every byte string |
| Base64.DecodesExactly | internal/crypto/crypto.go:101-105 | a text decodes if and only if it is groups of four digits with the padding at the end of the last |
| Base64.Alphabet | internal/crypto/crypto.go:98-102 | the digits are those of table 1 of RFC 4648 in its order |
| Cipher.NewEncryptor | internal/crypto/crypto.go:36-57 | succeeds if and only if the primary version is present and every version is non-zero with a 32-byte key; keeps all keys; a refusal names a true reason |
| Cipher.Encrypt | internal/crypto/crypto.go:83-99 | what decodes from the result is the version, the nonce and the text sealed under the primary key with the version as associated data; fails exactly without randomness |
| Cipher.DecryptUndoesEncrypt | internal/crypto/crypto.go:83-121 | decrypting undoes encrypting for every plaintext and nonce |
| Cipher.DecryptsEverywhere | internal/crypto/crypto.go:101-121 | any encryptor with the key opens the ciphertext; one without the version reports it unknown |
| Cipher.ReEncryptKeepsMeaning | internal/crypto/crypto.go:123-140 | for any text, a successful re-encryption decrypts to the same, clears the need and is idempotent; it fails exactly when needed and undecryptable or without randomness |
| Cipher.SettledButUnreadableExactly | internal/crypto/crypto.go:101-140 | a record passes for settled and cannot be read if and only if it names the primary version and is too short or does not open; re-encryption leaves it as it is |
| Cipher.TruncatedRecordsPassForSettled | internal/crypto/crypto.go:105-140 | so does every record cut off after the version byte of the primary key |
| KeyRotation.NothingIsLost | internal/crypto/crypto.go:83-140 | through any history of puts, re-encryptions and rotations that keep the keys in use, every record decrypts to what was put in |
| KeyRotation.ReadableExactly | internal/crypto/crypto.go:101-121 | after a rotation a record is readable if and only if its version is still there |
| KeyRotation.PrimaryAloneSuffices | internal/crypto/crypto.go:123-140 | after re-encrypting the whole store the primary key alone reads it |
| KeysEnv.ParseKeysEnv | internal/crypto/crypto.go:59-81 | the loop computes the fold of the parts up to the first error |
| KeysEnv.ParsesTheMap | internal/crypto/crypto.go:59-81 | any writing of a non-empty key map, in any order, with spaces and empty parts, parses to exactly that map |
| KeysEnv.ParsesWhatIsWritten | internal/crypto/crypto.go:62-76 | with repeated versions the last key wins |
| KeysEnv.AcceptedExactly | internal/crypto/crypto.go:59-81 | a setting is accepted if and only if every part is empty or names a version from 1 to 255, and not all are empty |
| KeysEnv.RefusedFor | internal/crypto/crypto.go:62-80 | a refusal names the first part that is wrong and what is wrong with it, or says that no key is named when all parts are empty |
| KeysEnv.AtoiAccepts | internal/crypto/crypto.go:71-74 | a version is an optional sign and at least one digit |
| KeysEnv.AtoiReads | internal/crypto/crypto.go:71-74 | it is read as decimal, with its sign, leading zeros making no difference |
| KeysEnv.SplitJoin | internal/crypto/crypto.go:62-62 | splitting at commas undoes joining |
| AtlassianImport.AtlassianImporter.Import | internal/app/atlassian_importer.go:91-196 | goes through if and only if the schema is known, the export is importable and no call fails; then the store holds what the export means and the counters count the added rows, else nothing has changed and the result is zero |
| AtlassianImport.AtlassianImporter.ImportComponents | internal/app/atlassian_importer.go:115-146 | a monitor per component with a URL, the others counted as skipped, and the id map |
| AtlassianImport.AtlassianImporter.ImportIncident | internal/app/atlassian_importer.go:148-190 | one incident with its name and time of resolution, in the state of its status text unless resolved, and one update per post in the state of its text; refused for unknown texts, a second open incident or a failing call |
| AtlassianImport.StatesByText | internal/app/atlassian_importer.go:213-225 | which of the five status texts stands for which state, and that no other is known |
| AtlassianImport.AtlassianImporter.ImportIncidents | internal/app/atlassian_importer.go:148-191 | all attached incidents in order, exactly when the whole list is importable |
| AtlassianImport.AttachedToFirstMapped | internal/app/atlassian_importer.go:198-208 | an incident goes to the importing user's new monitor of the first of its component ids with a URL, the last such component of that id; otherwise it is skipped |
| AtlassianImport.OpenRowsOf | internal/database/migrations/016_incident_uniqueness.sql:11-12 | a monitor has an open imported incident exactly when an attached one without resolved_at came before |
| IncidentTimeline.TimelinesTellTheStory | internal/app/monitoring.go:163-272 | in every serial run the newest update shows the state, every earlier update could move to every later one, resolved is final, and resolved_at is set exactly when resolved |
| IncidentTimeline.ApplyKeeps | internal/app/monitoring.go:163-272 | each operation keeps all timelines coherent |
| IncidentTimeline.MovesAreLevels | internal/domain/incident.go:35-55 | the allowed moves, listed, are exactly those that do not go down one of three levels |
| IncidentTimeline.MovesChain | internal/domain/incident.go:35-55 | allowed moves chain, and resolved is never left |
| IncidentTimeline.OverlapExactly | internal/app/monitoring.go:185-211 | committing two changes that were both accepted on one store keeps the timelines coherent if and only if they are about different incidents or the second could follow the first |
| IncidentTimeline.ChangesThatOverlapReopen | internal/app/monitoring.go:185-211 | in a store that two calls lead to, resolving and going back can overlap and leave the incident identified with resolved_at set |
| IncidentTimeline.MonitoringService.ChangeIncidentState | internal/app/monitoring.go:163-211 | accepted exactly for the monitor's owner, a text, an allowed move and writes that all go well; then state, resolution time and update change together, else nothing does |
| IncidentTimeline.MonitoringService.CreateManualIncident | internal/app/monitoring.go:225-272 | accepted exactly for the monitor's owner, a title, a text, no open incident and writes that all go well; then incident and first update are there together, else nothing is |
| SslThresholds.NothingSkipped | internal/bootstrap/scheduler.go:262-293 | scans at most a day apart miss none of the three alerts of a certificate first seen with 15 days left |
| SslThresholds.NothingRepeated | internal/bootstrap/scheduler.go:262-293 | scans at least a day apart never repeat an alert |
| SslThresholds.DailyScansAlertOnceEach | internal/bootstrap/scheduler.go:262-293 | scans exactly a day apart raise 14, 7, 1 once each, in order |
| SslThresholds.OnlyADayDoesBoth | internal/bootstrap/scheduler.go:262-293 | a fixed gap never skips exactly when at most a day, and never repeats exactly when at least a day |
| SslThresholds.WindowOf | internal/adapter/checker/ssl_probe.go:58-61 | despite truncation, n days left means a half-open window of one day |
| SslThresholds.RunSslScan | internal/bootstrap/scheduler.go:250-296 | publishes the due alerts in order; a failed probe or publish costs only its own |
| SslThresholds.ScanAlerts | internal/bootstrap/scheduler.go:250-296 | one scan alerts about a monitor exactly when its address is https, its certificate can be probed and has 14, 7 or 1 days left, and the publish goes through |
| SslThresholds.ScansPublishAlerts | internal/bootstrap/scheduler.go:250-296 | what consecutive scans publish about a monitor they see is exactly the alerts of its certificate |
| SslThresholds.DailyScansPublishOnceEach | internal/bootstrap/scheduler.go:155-165 | so daily scans publish 14, 7 and 1 about it, once each and in order |
| SslThresholds.RunDailyScans | internal/bootstrap/scheduler.go:155-165 | scans one after the other publish what each of them does, in order |
| ObjectCache.SameObjectExactly | internal/adapter/channel/registry.go:72-109 | in any interleaving two calls get the same object if and only if they ask for one key that is not evicted between their map steps |
| ObjectCache.OneObjectPerKey | internal/adapter/checker/http.go:73-86 | without eviction there is one object per key for good |
| ObjectCache.AnsweredWithItsKey | internal/adapter/channel/registry.go:72-89 | in any interleaving a call is answered with an object made for the key it asked for |
| ObjectCache.RemovedWasIdle | internal/adapter/channel/registry.go:91-109 | in any interleaving an object leaves the map only by the removal of a key that the evictor had found idle |
| ObjectCache.IdleIsRemoved | internal/adapter/channel/registry.go:91-109 | undisturbed, the evictor's two steps remove exactly an idle object and no other |
| Breakers.ChannelsNeverShare | internal/adapter/channel/registry.go:72-89 | in any interleaving, calls for different channels, or for one channel under two types, are never answered with the same breaker |
| Breakers.EvictsAccessedExactly | internal/adapter/channel/registry.go:91-109 | what the evictor removes is the breaker it looked at, and that has been accessed within the hour by then if and only if a call that got it in between was the last to touch it |
| Breakers.EvictedWhileInUse | internal/adapter/channel/registry.go:91-109 | a breaker accessed just now can be evicted, and the next call gets another |
| Breakers.Registry.GetOrCreateCb | internal/adapter/channel/registry.go:72-89 | a call on its own is the machine's load and touch, or load and store: the breaker of that type and channel, new only if there was none, its time written, all others untouched |
| Breakers.Registry.Evict | internal/adapter/channel/registry.go:98-106 | an undisturbed pass removes exactly the breakers idle for an hour |
| Breakers.HttpChecker.ClientForTimeout | internal/adapter/checker/http.go:73-86 | one client per timeout, with that timeout |
| Text.TrimIs | internal/app/custom_domain.go:198-198 | trimming gives the one text without space at its ends that the original is with space around it |
| Text.SpacesAre | internal/app/custom_domain.go:198-198 | which characters are white space: blank, tab, the line breaks and those of Unicode, and no printing ASCII |
| Text.LowerForgetsCase | internal/app/custom_domain.go:78-109 | two names have the same lower-case form if and only if they differ in the case of ASCII letters only |
| Text.Utf8Counts | internal/domain/validate.go:19-25 | the length that the name limit counts is in bytes: one for an ASCII character, up to four for others |

## Left out

- FleetRateBound: carries a term for late dispatches; when it can be dropped is stated by PlainBoundExactly.
- ReplicaAgrees: monitors created by the importer publish no event and are excluded; so are lost publishes. Changes that overlap are in `OverlappingChanges`.
- TimelinesTellTheStory: serial calls only, because the transition check runs outside the transaction; OverlapExactly says what two overlapping ones keep.
- OneDownAlertPerRun: serial checks without repository faults; the concurrent machine keeps the weaker facts stated there.
- SweepsActivateOldest: needs every probe, certificate and write to succeed.
- Consume: deliveries of one event follow each other; redeliveries that overtake a handler are in `LateHandlers`, where a delivery is what its handler comes to in the end.
- NoChannelTwice: is about sends that succeed; what arrives is more when a try reports an error about an event that has arrived, as NeverTwiceExactly says.
- EvictsAccessedExactly: a call that has got a breaker and not touched it, or got another call's from LoadOrStore, does not count as an access.
- TagFromWebhook, Activate, HandleLemonSqueezy, CreateMonitor, UpdateMonitor, DeleteMonitor, TogglePause: as methods, a call that fails has no effect; writes that take effect although they report an error are steps of the machines.
- GetOrCreateCb, Evict, ClientForTimeout: the methods are the undisturbed calls; interleavings are in `ObjectCache`.
- The Postgres, Redis and NATS adapters appear as contracts taken from the queries and migrations. Each call is one atomic step, except the status update, whose read and write are two; other row locks and isolation levels are not modelled.
- The lock library, the breaker's own states, retry back-off and the ACME client: only the lock's owner and expiry, and success or failure, are kept.
- The AEAD is abstract (section 5.2 of RFC 5116 gives its tag length; opening undoes sealing); forged ciphertexts are not considered. Base64 is concrete.
- HTTP, TCP, DNS and TLS probing, JSON decoding and signature checks: their outcomes are parameters.
- The rules for acceptable hostnames, and which monitors are listed for the expiry scan: parameters.
- The checker's own rules for a monitor's configuration: whether it accepts one is a parameter.
- Lower-casing of letters outside ASCII, and strings that are not valid UTF-8.
- The cooldown window itself: its answer is an arbitrary input of the incident automaton.
- The cache of a process that did not run the sweep is not told of an activation; only the process that reloads is modelled as current.
- Retention clean-up, uptime figures, status pages, subscriptions, maintenance windows, groups, badges, API keys, sessions and passwords: one-branch facts or input and output.
- The import's monitor settings that are constants (type, interval, threshold, public) and the time an imported incident started, which the code does not store.
- The customer and subscription ids written by an upgrade.
- The frontend, generated code, mocks, metrics and logging.
