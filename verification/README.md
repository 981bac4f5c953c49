# Sentigon event pipeline: a Dafny model

This project models the stateful cores of the Sentigon video-security pipeline and proves what they keep over
whole runs. Database tables are sequences, transactions and awaits are steps, time is a real number, hashes and
planar distances are arbitrary functions. Code that updates state in place is a class or a method with loops,
proved equal to a function of the inputs or of the old state; the theorems are lemmas about those functions.

| file | component |
|---|---|
| `ContextTracks.dfy`, `ContextEngine.dfy` | tracks, zones, dwell and intrusion of the context engine, against its history |
| `Firing.dfy` | cooldown gate with eviction, schedule suppression, grouping, creation of incidents |
| `Speed.dfy` | median ground speed of a track |
| `Consumer.dfy` | the at-least-once message loop with crashes, retries, dead letters and replay |
| `Dispatch.dfy` | dispatch handler, SLA sweeper and endpoints as one state machine |
| `EffectivelyOnce.dfy` | the dispatch handler run by the consumer |
| `Vault.dfy` | hash-chained evidence ledger: concurrent appends, the verifier loop, tamper evidence |
| `Zones.dfy`, `Silhouettes.dfy` | ray-casting point-in-polygon over exact reals; silhouettes against zones |
| `Fleet.dfy` | health rules and reconciliation of findings |
| `Capture.dfy` | segmenting capture loop and pre-roll ring |
| `MediaSource.dfy` | stream paths, configuration file and auto-onboarding of pushed streams |
| `Escalation.dfy` | on-call escalation of unacknowledged incidents |
| `Evaluation.dfy`, `Governance.dfy` | gold-set counting, micro averages, champion-challenger promotion |
| `Common.dfy` | options, results and bounded deques |

Where the code and its own documentation differ, the model follows the code, and a lemma says for all inputs exactly
when the documented property holds:

- The vault is documented as detecting reordering, deletion and modification. Reordering is detected:
  `Vault.ReorderingUndetectedIff`. Rows without a digest are not recomputed, fields outside the digest are not hashed,
  and a truncated tail still verifies: `Vault.EditUndetectedIff`, `Vault.DeletionUndetectedIff` and
  `Vault.InsertionUndetectedIff` say exactly what goes unseen.
- `hits_mask` is documented to hit a zone if any point of the silhouette's boundary lies in it. It looks at the listed
  points only. `Silhouettes.AnswerIff` says, by finitely many points computed from the coordinates, exactly when the
  answer is the documented one, `Silhouettes.RectangleAnswerIff` by clipping when the zone is a rectangle. A
  silhouette whose boundary enters the zone unnoticed meets one of its edges (`Silhouettes.MissMeetsAnEdge`); one that
  overlaps the zone unnoticed meets an edge or encloses it (`Silhouettes.MissCoversAllOrNothing`). Both kinds exist:
  `Silhouettes.CrossingMaskMisses`, `Silhouettes.EnclosingMaskMisses`.
- `_eval_intrusion` is documented as firing after a track was continuously inside. The confirmation time runs on while
  the track is unseen, and the two differ exactly where the time unseen makes up for what the observation lacks:
  `ContextTracks.FiresAsDocumentedIff`.
- `_prune_state` is documented as never dropping an active cooldown. That holds exactly for cooldowns up to the
  eviction horizon less the skew between the cameras' clocks: `Firing.EvictionInvisibleIff`.
- `real_speed` is documented as immune to a single jump. Fast steps are rejected exactly when they are a minority of
  the usable ones (`Speed.MinorityRejected`); one wrong position is harmless exactly when there are at least six
  positions or it is an end of four or five (`Speed.GlitchProofIff`).
- `run_consumer` is documented as retrying a message before it is dead-lettered. One that fails while the service is
  stopping is dead-lettered without the rest of its retries (`Consumer.StoppingSkipsRetries`); without such a failure
  the documentation holds (`Consumer.DeadLettersAsDocumented`).
- It is documented as never losing an event and never wedging on a poison message. With `latest`, which
  services pass, nothing is promised before the first commit (`Consumer.LatestSkipsBeforeFirstCommit`,
  `Consumer.DoneBelowFirst`). A correlation header that does not decode raises outside every handler of the loop and
  wedges the partition; a partition can advance exactly past the messages described in `Consumer.AdvancesIffPassable`.
- A removed push camera is documented as ignored until a fresh reconnect. The removals are kept in memory, so a restart
  forgets them too; when the camera comes back is said exactly by `MediaSource.RemovedUntilMissed`,
  `MediaSource.MissedPollForgets` and `MediaSource.RestartForgets`.
- Grouping is documented to collapse repeated detections into one open incident. The incident endpoint has no guard:
  one open incident per group is kept exactly as long as no status change is harmful: `Firing.DedupedIffHarmless`.
- Dispatch endpoints have no state guard: resolving is final exactly when no acknowledgement follows:
  `Dispatch.ResolvedIffNotAcked`.
- Model registration looks at names only: it keeps one champion per role exactly when it does not add a champion to a
  role that has one: `Governance.RegisterKeepsSoundIff`.
- The dispatch severity filter ranks every unknown severity as info: it lets through only severities the table accepts
  exactly when the configured minimum is above info: `EffectivelyOnce.WantedMeansEligibleIff`.

## Model

| member | source | states |
|---|---|---|
| `ContextTracks.HistoryRefinement` | services/context/sentigon_context/engine.py:294-327 | after any sequence of sightings and prune passes, `tracks` is exactly the ids whose last sighting survived every prune, each record (class, first and last seen, zones, entry times) is what the history prescribes, and a zone's `occupants` are exactly the live ids last seen in it |
| `ContextTracks.LiveWithinWindow` | services/context/sentigon_context/engine.py:616-627 | with time that does not run backwards, the tracks right after a prune pass are exactly the ids last seen within the stale window |
| `ContextTracks.SeenTrack` | services/context/sentigon_context/engine.py:299-324 | a sighting brings the track's record in line with its history; the keys of `zone_enter` are the track's zones |
| `ContextTracks.LifeStart` | services/context/sentigon_context/engine.py:299-302 | the sighting that began a track's current life exists, is of that track and is no later |
| `ContextTracks.RunStart` | services/context/sentigon_context/engine.py:309-323 | the sighting that began the unbroken run inside a zone is of that track, inside the zone, and itself an entry |
| `ContextTracks.ZoneStepAt` | services/context/sentigon_context/engine.py:309-323 | a zone changes at a sighting exactly as the history says the track enters or leaves it, with the stay measured from the start of its run |
| `ContextTracks.DwellConservation` | services/context/sentigon_context/engine.py:309-324 | entries ever recorded equal `dwell_count` plus current occupants plus tracks pruned while inside; `dwell_sum` is the sum of the completed stays |
| `ContextTracks.PrunedInsideIsHistory` | services/context/sentigon_context/engine.py:616-627 | the occupants a prune pass drops are exactly the tracks last seen in the zone longer than the stale window ago |
| `ContextTracks.DwellNonNegative` | services/context/sentigon_context/engine.py:318-322 | with monotone time the dwell sum is never negative |
| `ContextTracks.EntriesAreLatest` | services/context/sentigon_context/engine.py:309-313 | the bounded `entries` deque holds the zone's last 64 entries of the whole history |
| `ContextTracks.IntrusionIsExact` | services/context/sentigon_context/engine.py:650-698 | the evaluator's result for (track, zone) on any state that refines the history is the candidate the history calls for: live and old enough track, firing zone type, and a current run inside that began at least the zone's own confirmation time ago, or the global one if it has none |
| `ContextTracks.CandidateIff` | services/context/sentigon_context/engine.py:659-680 | a candidate exists if and only if the pair may fire and its run inside began at least that confirmation time ago; it says for how long, and its signature follows the zone type and, except on a perimeter, whether the object is a vehicle |
| `ContextTracks.FiresAsDocumentedIff` | services/context/sentigon_context/engine.py:650-680 | for every history: the evaluator fires exactly for what has been seen inside for the confirmation time, if and only if it is not the case that the observation falls short of it and the time unseen makes up the rest |
| `ContextTracks.SeenNowFiresAsDocumented` | services/context/sentigon_context/engine.py:673-680 | a track seen in the very frame fires exactly when it has been seen inside long enough |
| `ContextEngine.CameraState.SeeObject` | services/context/sentigon_context/engine.py:294-324 | the object loop's body makes exactly one sighting step of the model |
| `ContextEngine.CameraState.EnterZones` | services/context/sentigon_context/engine.py:309-313 | the entering loop sets entry time, occupants and entries of exactly the newly hit zones |
| `ContextEngine.CameraState.LeaveZones` | services/context/sentigon_context/engine.py:314-323 | the leaving loop updates occupants and dwell of exactly the zones left and forgets their entry times |
| `ContextEngine.CameraState.PruneTracks` | services/context/sentigon_context/engine.py:616-627 | `_prune` makes exactly one prune step and returns exactly the stale tracks |
| `ContextEngine.CameraState.HandleFrame` | services/context/sentigon_context/engine.py:294-326 | one message appends its sightings and one prune to the history and leaves the dictionaries as the whole history prescribes; it returns exactly the live tracks last seen longer than the stale window ago |
| `ContextEngine.SightingsAreTracked` | services/context/sentigon_context/engine.py:294-297 | a frame's sightings are its tracked objects, one each and in order; untracked ones are skipped |
| `ContextEngine.CameraState.EvalIntrusion` | services/context/sentigon_context/engine.py:650-698 | the evaluator's loops return exactly the candidates the history calls for, each once |
| `Firing.EvictionInvisible` | services/context/sentigon_context/engine.py:600-614 | with cameras' clocks at most a skew apart and cooldowns up to the horizon less the skew, every gate decision equals that of a gate that never evicts |
| `Firing.EvictionVisibleBeyondHorizon` | services/context/sentigon_context/engine.py:600-614 | any longer cooldown is cut short by eviction on a concrete run |
| `Firing.EvictionInvisibleIff` | services/context/sentigon_context/engine.py:600-614 | eviction is invisible on all runs with cooldowns up to a bound if and only if the bound is within the horizon less the skew |
| `Firing.PassesSpaced` | services/context/sentigon_context/engine.py:1107-1110 | two passes of one (camera, signature, scope) are at least the cooldown apart under any interleaving; with the eightfold horizon this also covers the handoff and anomaly gates |
| `Firing.FiringsSpaced` | services/context/sentigon_context/engine.py:1099-1110 | the same for the whole pipeline with cooldowns of at most an hour less the skew |
| `Firing.PipelineGate` | services/context/sentigon_context/engine.py:1107-1110 | grouping, suppression and operators never touch the gate: the pipeline's gate is that of its gate operations |
| `Firing.EveryPassAccounted` | services/context/sentigon_context/engine.py:1107-1206 | suppressed, grouped and created add up to the gate passes, and created is the number of incidents |
| `Firing.OccurrencesConserved` | services/context/sentigon_context/engine.py:889-895 | for every (signature, camera, zone) the occurrence counts of its incidents add up to its unsuppressed passes, whatever operators do |
| `Firing.OneOpenIncidentPerGroup` | services/context/sentigon_context/engine.py:865-895 | with sequential firing there is at most one open incident per group inside the dedup window, as long as no status change was harmful |
| `Firing.DedupedIffHarmless` | services/context/sentigon_context/engine.py:865-895 | over every such run this holds after every operation if and only if no status change was harmful |
| `Firing.SetStatusKeepsIff` | services/api/sentigon_api/app.py:541-557 | a status change keeps at most one groupable incident per group if and only if it closes, or the incident was open, or was last seen before the window, or its group has no other groupable one |
| `Firing.FindOpen` | services/context/sentigon_context/engine.py:876-889 | the newest open, recent incident of the group, or none when there is none |
| `Firing.Engine.Prune` | services/context/sentigon_context/engine.py:600-608 | within a minute of the last eviction nothing changes; otherwise exactly the entries an hour old go |
| `Firing.Engine.GroupIntoOpen` | services/context/sentigon_context/engine.py:865-895 | rolls the detection into the newest incident of its signature, camera and zone that is not closed and was seen within the window, which is then seen once more and last now; says no and changes nothing exactly when there is none |
| `Firing.DetectionInFull` | services/context/sentigon_context/engine.py:1099-1206 | one detection in the incidents' own fields: which of the five outcomes it has and when, what it does to the gate, the incidents and the counters |
| `Firing.LastSeenIsLastDetection` | services/context/sentigon_context/engine.py:893 | over every run an incident's `last_seen_at` is the time of the last detection that made it or was rolled into it |
| `Firing.StreamIsOneIncident` | services/context/sentigon_context/engine.py:865-895 | over every run in which the detections of a group that pass the gate unsuppressed follow each other within the window, and nobody closes its incident, they make exactly one incident, counted once for each |
| `Firing.Engine.FireCandidate` | services/context/sentigon_context/engine.py:1099-1206 | `_fire` ends in the outcome and state of the model's step, which `DetectionInFull` spells out |
| `Speed.RealSpeed` | services/context/sentigon_context/engine.py:74-99 | 0 without calibration, with fewer than four positions or two usable steps of the last eight; otherwise one of those steps, within v exactly if less than half of them exceed v |
| `Speed.StepInFull` | services/context/sentigon_context/engine.py:41-49 | a step counts exactly if time advances between two fixes in the calibrated part of the image whose depth is not too small; its speed times that time is the distance between the points the homography maps them to |
| `Speed.MedianRank` | services/context/sentigon_context/engine.py:96-99 | the median is within v if and only if at most (n-1)/2 of n steps exceed v |
| `Speed.MinorityRejected` | services/context/sentigon_context/engine.py:75-79 | fast steps are rejected exactly when they are a minority; with two steps a single jump passes |
| `Speed.GlitchRejected` | services/context/sentigon_context/engine.py:80-99 | one wrong position, whatever its time and place, in a track of six or more or at an end of four or five, never lifts the speed above a bound that all true steps meet |
| `Speed.GlitchProofIff` | services/context/sentigon_context/engine.py:80-99 | for every number of positions from four on and every place: no camera, track, bound and wrong position break that bound if and only if there are at least six positions or the place is an end |
| `Speed.GlitchPasses` | services/context/sentigon_context/engine.py:80-99 | a wrong interior position among four or five gives an object at rest a speed |
| `Speed.SortedIsSorted` | services/context/sentigon_context/engine.py:98 | sorting yields an ascending list of the same values |
| `Consumer.ExecKeepsInv` | services/common/sentigon_common/kafka.py:161-220 | in every run everything below the frontier is handled or dead-lettered, nothing above it is, and positions, causes and completion counts agree |
| `Consumer.NoLoss` | services/common/sentigon_common/kafka.py:187-217 | with `earliest`, every offset below the committed one was handled or dead-lettered, over all crashes, failed commits, handler failures and queue outages |
| `Consumer.DeadLettersJustified` | services/common/sentigon_common/kafka.py:173-217 | only undecodable bodies, messages that failed all attempts, or messages failing at shutdown are dead-lettered |
| `Consumer.DeadLettersAsDocumented` | services/common/sentigon_common/kafka.py:187-217 | over every run in which no handler fails while the service is stopping, a dead letter does not decode or has failed on exactly `max_retries` attempts |
| `Consumer.StoppingSkipsRetries` | services/common/sentigon_common/kafka.py:202-203 | a message whose first attempt fails while the service is stopping is dead-lettered after that attempt, whatever `max_retries` |
| `Consumer.CommitsMonotone` | services/common/sentigon_common/kafka.py:169-171 | committed offsets never move back and the completed sets only grow |
| `Consumer.RedeliveryBound` | services/common/sentigon_common/kafka.py:207-217 | at most one completed message is uncommitted at any time; each interruption repeats at most one completion |
| `Consumer.PoisonIsDiverted` | services/common/sentigon_common/kafka.py:173-217 | a message that does not decode, or whose handler failed on every attempt, is moved past by an accepting dead-letter queue and left to be replayed by a refusing one |
| `Consumer.AdvancesIffPassable` | services/common/sentigon_common/kafka.py:162-217 | from any point of any run, some continuation commits past the message at hand if and only if its correlation header decodes and it has a handler to try or a queue to go to |
| `Consumer.LatestSkipsBeforeFirstCommit` | services/common/sentigon_common/kafka.py:127 | with `latest` a message arriving before the first commit can be skipped and committed past |
| `Consumer.DoneBelowFirst` | services/common/sentigon_common/kafka.py:127 | an offset below the one the group started from is done only if an earlier life completed it before anything was committed |
| `Consumer.Consumer.RunConsumer` | services/common/sentigon_common/kafka.py:121-225 | every behaviour of the loop is a run of the step system; it ends only when told to stop, when an await failed or died or a correlation header did not decode, or with nothing left; it fetches no message after one that ended with the stop event set; if nothing fails, every message with a body is handled once and in order, the store is what those handlings make of it, and only bodiless messages are dead-lettered |
| `Consumer.Consumer.AwaitMessage` | services/common/sentigon_common/kafka.py:162-171 | an arrival is queued, a delivery is handled, a failed fetch leaves the loop; nothing else changes |
| `Consumer.Consumer.HandleMessage` | services/common/sentigon_common/kafka.py:173-220 | a message with a body is handled exactly if the handler returns on some attempt, having failed on those before without the service stopping; if it fails on all of them and the queue accepts, it is dead-lettered as exhausted |
| `Consumer.Consumer.TryHandler` | services/common/sentigon_common/kafka.py:187-205 | the retry loop reports handled exactly in that case, at that attempt; otherwise nothing is marked handled |
| `Consumer.Consumer.Settle` | services/common/sentigon_common/kafka.py:207-217 | a handled message is committed and not dead-lettered; any other is dead-lettered and committed, or replayed without a commit |
| `Consumer.Consumer.AwaitHandler` | services/common/sentigon_common/kafka.py:189-205 | a handler that returns has its effect on the store and marks the offset handled; one that raises leads to a retry, to the queue after the last attempt, or to the queue at once with the stop event set; death leaves the effect made or not |
| `Consumer.Consumer.ToDeadLetter` | services/common/sentigon_common/kafka.py:107-118 | with a producer, an accepted publish records the cause and moves on to the commit; without one, or when it raises, the offset is polled again |
| `Consumer.Consumer.AwaitCommit` | services/common/sentigon_common/kafka.py:208-211 | a commit advances to exactly the next offset; an exception leaves the loop with the commit made or lost |
| `EffectivelyOnce.EffectivelyOnce` | services/dispatch/sentigon_dispatch/engine.py:45-141 | under any run of the consumer, with `latest` as deployed or `earliest`: at most one dispatch per incident, each called for by a reached message, and every committed eligible message from the group's start on that was not dead-lettered has its dispatch, also when the handler fails after its transaction |
| `EffectivelyOnce.RunKeepsStoreOk` | services/dispatch/sentigon_dispatch/engine.py:66-75 | the same invariant for any offset reset policy, on the messages actually handled |
| `EffectivelyOnce.HandlerIdempotent` | services/dispatch/sentigon_dispatch/engine.py:67-75 | a second delivery is a no-op |
| `EffectivelyOnce.WantedMeansEligibleIff` | services/notify/sentigon_notify/notifier.py:31-35 | for every configured minimum: the filter lets through only payloads the table accepts, whatever they are, if and only if the minimum ranks above info |
| `EffectivelyOnce.RanksAboveInfo` | services/notify/sentigon_notify/notifier.py:31-35 | the minimums that rank above info are exactly critical, high, medium and low |
| `Dispatch.Service.Handle` | services/dispatch/sentigon_dispatch/engine.py:45-143 | which payloads are skipped, duplicate, rejected and opened, in their own fields; an opened row keeps incident, site and severity, goes to the tier-1 responder notified, and has the configured SLAs, acknowledgement and resolution each its own |
| `Dispatch.Service.EscalateBreached` | services/dispatch/sentigon_dispatch/sla.py:51-101 | the first loop escalates exactly the notified rows past their ack SLA, with one audit entry each |
| `Dispatch.Service.ExpireBreached` | services/dispatch/sentigon_dispatch/sla.py:103-134 | the second loop expires exactly the unresolved open rows past their resolve SLA |
| `Dispatch.Service.SweepNow` | services/dispatch/sentigon_dispatch/sla.py:47-136 | row by row what the sweep leaves, and entry by entry what it records, both judged by the row as the sweep found it: escalation with the next tier's responder, else any tier-1 one, else the old; expiry whether escalated or not |
| `Dispatch.Service.AckDispatch` | services/dispatch/sentigon_dispatch/app.py:235-256 | acknowledging sets time, state and name whatever the state was; a missing row is not found |
| `Dispatch.Service.ResolveDispatch` | services/dispatch/sentigon_dispatch/app.py:260-286 | resolving sets time and state, notes only if given, the name only if there was none |
| `Dispatch.Service.AssignDispatch` | services/dispatch/sentigon_dispatch/app.py:290-312 | assigning an unknown responder changes nothing; otherwise only the responder changes |
| `Dispatch.ExecKeepsDbOk` | services/dispatch/sentigon_dispatch/sla.py:47-136 | over every run of deliveries, acks, resolves, assigns, sweeps and failures the row states, tiers, times and audit log agree and no incident has two rows |
| `Dispatch.RowIsDelivery` | services/dispatch/sentigon_dispatch/engine.py:99-115 | over every run each row was opened by one confirmed delivery, whose incident, site, severity and times it keeps, with the configured SLAs |
| `Dispatch.EndpointsAreHistory` | services/dispatch/sentigon_dispatch/app.py:235-286 | over every run a row was acknowledged and resolved when the last such call says, with the notes last given |
| `Dispatch.EscalatedIff` | services/dispatch/sentigon_dispatch/sla.py:51-72 | over every run a dispatch is on its second tier if and only if some sweep found it notified for longer than its ack SLA |
| `Dispatch.ExpiredIff` | services/dispatch/sentigon_dispatch/sla.py:103-120 | over every run a dispatch is expired if and only if some sweep found it open past its resolve SLA and it has been neither acknowledged nor resolved since |
| `Dispatch.RankIsPosition` | services/notify/sentigon_notify/notifier.py:31-35 | severities rank by their place in the order info, low, medium, high, critical; unknown ones as info |
| `Dispatch.TierCountsEscalations` | services/dispatch/sentigon_dispatch/sla.py:62-72 | tier is one plus the recorded escalations and never exceeds two |
| `Dispatch.AckedNeverEscalated` | services/dispatch/sentigon_dispatch/app.py:235-256 | once acknowledged, no later run escalates the dispatch |
| `Dispatch.SweepSkipsResolved` | services/dispatch/sentigon_dispatch/sla.py:103-120 | a sweep leaves every row with a resolution time exactly as it is |
| `Dispatch.SlaBound` | services/dispatch/sentigon_dispatch/sla.py:51-134 | if the last sweep is at most P ago and dispatches commit within L, no notified one outlives the configured ack SLA and no open unresolved one the configured resolve SLA by more than P + L, except one that was expired and acknowledged again since that sweep |
| `Dispatch.StateAfterResolve` | services/dispatch/sentigon_dispatch/app.py:235-286 | over every run, after its last resolution a dispatch is acknowledged if an acknowledgement followed and resolved otherwise |
| `Dispatch.ResolvedIffNotAcked` | services/dispatch/sentigon_dispatch/app.py:235-286 | resolving is final if and only if no acknowledgement follows |
| `Dispatch.AckAfterResolveIsStuck` | services/dispatch/sentigon_dispatch/app.py:235-286 | once acknowledged after its resolution it stays acknowledged over every later run that does not resolve it again |
| `Vault.EncodeInjective` | services/common/sentigon_common/vault.py:34-35 | the "digest:prev" text determines both parts because prev has 64 characters |
| `Vault.VerifyChain` | services/common/sentigon_common/vault.py:81-98 | ok if and only if every row links to the one before and no hash differs from that of its digest; a break is listed if and only if it is some row's |
| `Vault.BreaksInFull` | services/common/sentigon_common/vault.py:90-97 | which break each row reports: the wrong link with the hash expected there, or, only if it links, the wrong content hash |
| `Vault.BreaksUpTo` | services/common/sentigon_common/vault.py:89-98 | there are no breaks if and only if every row's link and content hold |
| `Vault.Session.AppendEvidence` | services/common/sentigon_common/vault.py:38-78 | writes nothing when neither data nor digest is given; otherwise one row that keeps the digest given, or that of the data, and whose hash is that of the digest and the hash before it; keeps intactness both ways |
| `Vault.AppendKeepsIntact` | services/common/sentigon_common/vault.py:60-76 | a chained append is intact exactly when the ledger was |
| `Vault.NewestHash` | services/common/sentigon_common/vault.py:60-63 | on rows in seq order the row of largest seq is the tail |
| `Vault.ExecKeepsDbInv` | services/common/sentigon_common/vault.py:56-78 | only the lock holder has read or written, and what it has extends the committed chain |
| `Vault.NoFork` | services/common/sentigon_common/vault.py:56-78 | under every interleaving of appending transactions, commits and aborts the committed ledger is in seq order and passes the verifier |
| `Vault.AppendIsThreeSteps` | services/common/sentigon_common/vault.py:56-76 | lock, read and insert by a transaction let in add the row the sequential append writes, with its digest, to what that transaction sees, and commit nothing |
| `Vault.EndOfTransaction` | services/common/sentigon_common/vault.py:54-78 | a commit publishes what its transaction appended and a rollback drops it; either frees its lock and touches no other transaction |
| `Vault.AppendAndCommit` | services/common/sentigon_common/vault.py:38-78 | from every point of every run at which the lock is free, any transaction can append, and its record ends up last in the table |
| `Vault.RowsAreInserted` | services/common/sentigon_common/vault.py:64-77 | over every run each row, committed or pending, keeps the digest and metadata of an insertion |
| `Vault.RunsAreDigestComplete` | services/common/sentigon_common/vault.py:64-77 | with digests given, every committed row has one and the hash that belongs to it, so its content is checked at every verification |
| `Vault.CommittedIsTamperEvident` | services/common/sentigon_common/vault.py:81-98 | a ledger that verifies, is digest-complete and ends in the hash a run committed last holds that run's evidence row by row, or yields a break of the hash function |
| `Vault.RewriteIsSeen` | services/common/sentigon_common/vault.py:90-97 | a committed row rewritten unseen still has the hash of its new digest, and but for the last row that hash is also the one of the old digest |
| `Vault.AppendOnly` | services/common/sentigon_common/vault.py:66-76 | committed rows are never rewritten |
| `Vault.UnlockedAppendsFork` | services/common/sentigon_common/vault.py:24-27 | without the lock two appenders commit a forked chain that fails the verifier |
| `Vault.TamperEvident` | services/common/sentigon_common/vault.py:81-98 | two digest-complete ledgers that verify and share the head hash hold the same evidence, or a hash collision or genesis preimage is extracted from them |
| `Vault.EditUndetectedIff` | services/common/sentigon_common/vault.py:91-97 | rewriting one row in its place goes unseen exactly when its link and content check still hold and the next row still points at it |
| `Vault.DeletionUndetectedIff` | services/common/sentigon_common/vault.py:90-97 | deleting one row goes unseen exactly when it is the last or repeats the hash before it |
| `Vault.InsertionUndetectedIff` | services/common/sentigon_common/vault.py:90-97 | putting a row in goes unseen exactly when it links to the row before, its content check holds, and it is the last or repeats the hash before it |
| `Vault.ReorderingUndetectedIff` | services/common/sentigon_common/vault.py:80-99 | with unique content hashes, rows of an intact ledger put together in any order, with omissions or repetitions, verify if and only if they are that ledger up to a truncated tail |
| `Zones.PointInPoly` | services/perception/sentigon_perception/zones.py:16-26 | the toggling loop computes the parity of the edges of the closed path that the ray crosses |
| `Zones.PathParityJoin` | services/perception/sentigon_perception/zones.py:20-25 | the parity of a path is the exclusive or of its parts |
| `Zones.CrossesSymmetric` | services/perception/sentigon_perception/zones.py:23 | an edge is crossed alike from either end |
| `Zones.RotationInvariant` | services/perception/sentigon_perception/zones.py:16-26 | the starting vertex does not matter |
| `Zones.ReversalInvariant` | services/perception/sentigon_perception/zones.py:16-26 | the direction of the vertex list does not matter |
| `Zones.DiagonalSplit` | services/perception/sentigon_perception/zones.py:16-26 | cutting along any diagonal gives the exclusive or of the two parts |
| `Zones.SubdivisionInvariant` | services/perception/sentigon_perception/zones.py:16-26 | inserting a vertex on an edge changes no answer |
| `Zones.OutsideBoundingBox` | services/perception/sentigon_perception/zones.py:16-26 | a point with x below or y below all vertices, or x or y at or above all of them, is never inside |
| `Zones.RectangleExact` | services/perception/sentigon_perception/zones.py:16-26 | on an axis-parallel rectangle the test is half-open containment |
| `Zones.Hits` | services/perception/sentigon_perception/zones.py:56-58 | the ids, in zone order, of the zones that contain the point |
| `Zones.HitsMask` | services/perception/sentigon_perception/zones.py:60-69 | the ids, in zone order, of the zones that contain some boundary point |
| `Zones.HitIdsExact` | services/perception/sentigon_perception/zones.py:60-69 | an id is returned if and only if some zone of that id contains some listed point |
| `Zones.MaskOutsideBoxMisses` | services/perception/sentigon_perception/zones.py:60-69 | a mask whose points all lie outside a zone's bounding box misses it, whatever it encloses |
| `Silhouettes.SameSideOfPolygon` | services/perception/sentigon_perception/zones.py:16-26 | the two ends of a segment that meets no edge of a polygon get the same answer |
| `Silhouettes.AnswerIff` | services/perception/sentigon_perception/zones.py:60-69 | for every zone and silhouette the answer is the documented one, whether any boundary point lies in the zone, if and only if a listed point is inside or no sample point of any edge is: the edge's cuts with the heights of the vertices and the lines of the edges, and the middles between cuts |
| `Silhouettes.SamplesExact` | services/perception/sentigon_perception/zones.py:16-26 | a segment enters a polygon if and only if one of its finitely many sample points does |
| `Silhouettes.RectangleAnswerIff` | services/perception/sentigon_perception/zones.py:60-69 | on rectangular zones the answer is the documented one if and only if a listed point is in the half-open box or clipping leaves nothing of any edge |
| `Silhouettes.EdgeMeetsBoxExact` | services/perception/sentigon_perception/zones.py:16-26 | a segment enters a rectangular zone if and only if clipping its coordinates leaves something |
| `Silhouettes.BoxDecides` | services/perception/sentigon_perception/zones.py:60-69 | for any zone the answer is the documented one if a listed point is inside or each edge lies on one outer side of the zone's bounding box |
| `Silhouettes.MissMeetsAnEdge` | services/perception/sentigon_perception/zones.py:60-69 | a silhouette that enters a zone and is missed meets an edge of the zone |
| `Silhouettes.ApartDecides` | services/perception/sentigon_perception/zones.py:60-69 | if the boundaries do not meet, the answer is the documented one and every listed point gives it |
| `Silhouettes.MissCoversAllOrNothing` | services/perception/sentigon_perception/zones.py:60-69 | a missed silhouette whose boundary does not meet the zone's covers all of the zone, vertices included, or none of it |
| `Silhouettes.EnclosingMaskMisses` | services/perception/sentigon_perception/zones.py:60-69 | every zone inside a rectangular silhouette is covered by it and missed |
| `Silhouettes.CrossingMaskMisses` | services/perception/sentigon_perception/zones.py:60-69 | every rectangular silhouette that reaches across a rectangular zone enters it with its boundary and misses it |
| `Fleet.EvalCameras` | services/fleet/sentigon_fleet/diagnostics.py:69-151 | the camera loop builds the rule's findings in order, and produces a (kind, camera) if and only if its condition holds |
| `Fleet.EvalServices` | services/fleet/sentigon_fleet/diagnostics.py:154-173 | one finding per service that is down and no other, critical for core ones |
| `Fleet.EvalPerception` | services/fleet/sentigon_fleet/diagnostics.py:176-224 | the findings of the first live perception service; the running maximum exceeds the limit exactly when some camera does |
| `Fleet.EvalHost` | services/fleet/sentigon_fleet/diagnostics.py:227-259 | a (kind, target) is produced if and only if its host rule's condition holds, no key twice, and exactly disk usage from 95 percent on is critical |
| `Fleet.FindingsExact` | services/fleet/sentigon_fleet/diagnostics.py:262-270 | a (kind, target) is produced if and only if its rule's condition holds of the snapshot's own numbers |
| `Fleet.FindingsSevere` | services/fleet/sentigon_fleet/diagnostics.py:69-259 | every finding has the severity of its rule: critical for core services and for disk use from 95 percent on |
| `Fleet.FindingsDistinct` | services/fleet/sentigon_fleet/diagnostics.py:262-270 | with distinct camera ids and service names no (kind, target) is produced twice |
| `Fleet.FleetEngine.ReconcileFindings` | services/fleet/sentigon_fleet/engine.py:120-168 | the index, update, insert and resolve loops compute the model's reconciliation |
| `Fleet.FleetEngine.Tick` | services/fleet/sentigon_fleet/engine.py:62-93 | one tick reconciles the findings of its snapshot |
| `Fleet.ReconcileRefinesHistory` | services/fleet/sentigon_fleet/engine.py:120-168 | after every tick the active rows are exactly the produced keys, one row each, and `first_seen_at` is the start of the current unbroken run of ticks producing the key; every other row is resolved |
| `Fleet.RunStart` | services/fleet/sentigon_fleet/engine.py:160-168 | the start of the unbroken run exists, and the tick before it did not produce the key |
| `Fleet.TableFollowsTelemetry` | services/fleet/sentigon_fleet/engine.py:62-168 | from telemetry to table: over any run of snapshots with distinct camera ids and service names the active keys are exactly those whose rule holds in the last one, one row each, with the severity that snapshot calls for, first seen at the start of the unbroken run of snapshots calling for it |
| `Capture.CameraWorker.CaptureLoop` | services/ingest/sentigon_ingest/capture.py:161-214 | for any reads without an exception, every written frame is in exactly one emitted segment, in order; segments are non-empty, shorter than the limit, and each ends where the next starts |
| `Capture.CameraWorker.WriteFrame` | services/ingest/sentigon_ingest/capture.py:193-206 | writing a frame, after rolling the segment over if due, keeps the partition of frames into segments |
| `Capture.CameraWorker.Push` | services/ingest/sentigon_ingest/capture.py:80-83 | the ring holds exactly the last N frames ever written |
| `Capture.Consumed` | services/ingest/sentigon_ingest/capture.py:175-182 | where the loop stops: at the end of the reads or after a failed read past the timeout |
| `Capture.StopsAtTimeout` | services/ingest/sentigon_ingest/capture.py:175-182 | the loop ends with the first failed read that comes more than the timeout after the last good one, or with the last read |
| `Capture.WrittenIff` | services/ingest/sentigon_ingest/capture.py:187-191 | a read writes its frame, with its clocks, if and only if it is good and comes at least one frame's time after the last frame written |
| `Capture.RateBound` | services/ingest/sentigon_ingest/capture.py:162-191 | no stretch of a recording holds more than `record_fps` frames a second, but for the first |
| `Capture.WrittenSpaced` | services/ingest/sentigon_ingest/capture.py:187-191 | consecutive written frames are at least one recording interval apart |
| `Capture.FullRingSpan` | services/ingest/sentigon_ingest/capture.py:80-83 | over any number of connections whose reconnect gaps are at least an interval, the ring spans its footage at every size and, full, at least N-1 recording intervals |
| `Capture.WrittenOverSpacedIff` | services/ingest/sentigon_ingest/capture.py:161-191 | all the frames ever written are an interval apart if and only if the reconnect gaps are |
| `Capture.RingsSpanIff` | services/ingest/sentigon_ingest/capture.py:80-83 | rings of every size span their footage at every moment if and only if consecutive frames are an interval apart |
| `Capture.ApartGapsOk` | services/ingest/sentigon_ingest/capture.py:150-155 | the gaps are long enough when the worker waits at least an interval before it reconnects |
| `Capture.CameraWorker.RunSessions` | services/ingest/sentigon_ingest/capture.py:127-158 | over several connections the worker's ring holds the last frames ever written, its segments hold all of them in order, and the span bound holds of the ring itself |
| `MediaSource.FreshPath` | services/mediasource/sentigon_mediasource/manager.py:544-547 | the suffix search terminates with the base if it is free and otherwise with the smallest number from 2 on that is |
| `MediaSource.TriesBounded` | services/mediasource/sentigon_mediasource/manager.py:546-547 | if the first n candidates are all taken there are at least n sources, so the search needs at most one try more than there are sources |
| `MediaSource.CandidatesDiffer` | services/mediasource/sentigon_mediasource/manager.py:545-547 | different suffixes give different paths, because decimal numerals determine their number |
| `MediaSource.RunKeepsSound` | services/mediasource/sentigon_mediasource/manager.py:285-576 | every sequential run of adds, polls, registrations, removals and restarts keeps all stream paths distinct, the configuration equal to the sources that are not pushed, and suppressed paths free of pushed sources |
| `MediaSource.RestartRestores` | services/mediasource/sentigon_mediasource/manager.py:66-80 | a restart after any run brings back exactly the sources that were not pushed, in order |
| `MediaSource.OnboardExact` | services/mediasource/sentigon_mediasource/manager.py:306-337 | a poll adds exactly one pushed source for each ready, unknown, unsuppressed inbound path and nothing else |
| `MediaSource.OnboardInFull` | services/mediasource/sentigon_mediasource/manager.py:306-337 | what a poll adds comes after the old sources, each for a ready stream that a device pushes at a path neither in use nor suppressed, under its title and at its address on the media server |
| `MediaSource.FilterInParts` | services/mediasource/sentigon_mediasource/manager.py:420 | filtering by path works part by part, so it keeps the sources at other paths and their order |
| `MediaSource.StaysRemoved` | services/mediasource/sentigon_mediasource/manager.py:298-316 | while every poll lists it ready and nothing restarts, a suppressed path stays suppressed and no pushed source returns to it |
| `MediaSource.RemovedUntilMissed` | services/mediasource/sentigon_mediasource/manager.py:298-316 | after the removal of a pushed camera and any further calls, a poll leaves a pushed source at its path if and only if there was one already, or the path is inbound and free and the removal was forgotten by a restart or a poll that missed the path |
| `MediaSource.SuppressedExactly` | services/mediasource/sentigon_mediasource/manager.py:298-301 | over every run the suppressed paths are exactly those removed and remembered ever since |
| `MediaSource.PollBringsIff` | services/mediasource/sentigon_mediasource/manager.py:306-316 | after a poll a pushed source is at the path if and only if it was, or the path is inbound, free and not suppressed |
| `MediaSource.MissedPollForgets` | services/mediasource/sentigon_mediasource/manager.py:299-301 | after any poll that misses the path and any calls that do not remove it again, a poll brings it back if and only if it is inbound and free |
| `MediaSource.RestartForgets` | services/mediasource/sentigon_mediasource/manager.py:64-80 | after a restart a poll brings a removed path back if and only if it is inbound and not configured, even if no poll ever missed it |
| `MediaSource.SecondAddIsRejected` | services/mediasource/sentigon_mediasource/manager.py:542-570 | a source whose probe failed stays, so adding its address again is rejected |
| `MediaSource.Manager.AddStreamSource` | services/mediasource/sentigon_mediasource/manager.py:528-576 | rejected exactly for a bad scheme or a known address, changing nothing; otherwise one stream source with the given name and address at the first free path, also in the configuration |
| `MediaSource.Manager.AddUsbSource` | services/mediasource/sentigon_mediasource/manager.py:472-526 | rejected exactly for an unreadable device, a known device or a taken path, changing nothing; otherwise one USB source at the path of its number, also in the configuration |
| `MediaSource.Manager.PersistSource` | services/mediasource/sentigon_mediasource/manager.py:456-470 | appends the entry, replacing any with its path |
| `MediaSource.Manager.RegisterCamera` | services/mediasource/sentigon_mediasource/manager.py:339-362 | registration binds one source to its camera and changes nothing else |
| `MediaSource.Manager.RemoveSource` | services/mediasource/sentigon_mediasource/manager.py:400-432 | drops the sources at the path of the first one bound to the camera; a pushed path is suppressed, any other leaves the configuration |
| `MediaSource.Manager.PollPushes` | services/mediasource/sentigon_mediasource/manager.py:298-316 | forgets the suppressed paths that are not ready, and adds exactly what it discovers |
| `Escalation.Escalator.Climb` | services/notify/sentigon_notify/escalation.py:85-89 | the level loop raises an incident to the highest due level and records each level passed, lowest first |
| `Escalation.Escalator.Sweep` | services/notify/sentigon_notify/escalation.py:61-90 | a committed sweep raises exactly the incidents that are new, confirmed and not too old, to the highest level whose delay they have passed, and changes nothing else about them; one that does not commit changes nothing |
| `Escalation.AfterRows` | services/notify/sentigon_notify/escalation.py:80-89 | after a sweep a selected incident's level is the maximum of the old level and every level whose delay has passed; others are untouched |
| `Escalation.EachLevelOnce` | services/notify/sentigon_notify/escalation.py:122-131 | over every run each level is recorded at most once per incident, in rising order, and the incident's level is the highest recorded |
| `Escalation.LevelIsHighestDue` | services/notify/sentigon_notify/escalation.py:80-89 | an incident's level never goes down and reaches k if and only if it had or some committed sweep found it due for k |
| `Escalation.AuditIsHistory` | services/notify/sentigon_notify/escalation.py:66-90 | a record exists if and only if some committed sweep met the incident new, confirmed, young enough, past the delay and below the level |
| `Escalation.OnlyWaitingArePaged` | services/notify/sentigon_notify/escalation.py:66-90 | nobody is paged for an incident that was not new and confirmed when the sweep came |
| `Escalation.LevelBeyondAgeLimit` | services/notify/sentigon_notify/escalation.py:64-76 | a level whose delay exceeds the age limit is never recorded |
| `Evaluation.Evaluate` | bench/eval_harness.py:73-86 | the counting loops score every signature by what happened to it on each clip; tp+fn is the expected total and tp+fp the total of alerts |
| `Evaluation.Tally` | bench/eval_harness.py:78-83 | an inner loop counts each of its signatures once and adds its size to the totals |
| `Evaluation.BumpTotals` | bench/metrics.py:65-73 | one count more for a signature, new or not, is one more in the totals, in whatever order they are summed |
| `Evaluation.MicroAverages` | bench/metrics.py:75-83 | micro precision and recall are in [0, 1] and are the share of alerts that were right and of expected signatures found, 0 of nothing |
| `Evaluation.RoundingIsSafe` | bench/metrics.py:101-102 | four-decimal rounding stays within half a unit, is monotone, idempotent and stays in [0, 1] |
| `Governance.EvaluationIsStored` | bench/metrics.py:96-103 | what is stored of an evaluated gold set is in range, on the four-decimal grid and close to the counted fractions |
| `Governance.WinRaisesScore` | services/governance/sentigon_governance/eval.py:45-50 | each win raises precision plus recall by at least `min_delta` less the tolerance |
| `Governance.ChainBound` | services/governance/sentigon_governance/eval.py:45-50 | a chain of wins on metrics in [0, 1] has at most 400 promotions |
| `Governance.BoundIsReached` | services/governance/sentigon_governance/eval.py:45-50 | a chain of 400 wins on stored metrics exists |
| `Governance.NoCycle` | services/governance/sentigon_governance/eval.py:45-50 | no model beats itself or one of its successors |
| `Governance.StoredWin` | services/governance/sentigon_governance/eval.py:48-50 | on stored metrics a win means no regression at all and an improvement by `min_delta` |
| `Governance.WinsAreTransitive` | services/governance/sentigon_governance/eval.py:45-50 | beating is transitive on stored metrics |
| `Governance.RawWinsAreNotTransitive` | services/governance/sentigon_governance/eval.py:48-50 | on unrounded metrics, which the harness never stores, the tolerance would add up and transitivity fail |
| `Governance.Registry.Decide` | services/governance/sentigon_governance/eval.py:53-85 | fails exactly when a role has several champions; otherwise names the champion and the newest challenger, and promotes exactly if there is a challenger and either no champion or one that it outdoes by the stored measures, where a model never evaluated counts as 0 |
| `Governance.Registry.Promote` | services/governance/sentigon_governance/eval.py:88-104 | retires every champion of the role and then makes the named model a champion, if it exists |
| `Governance.Registry.RegisterModels` | services/api/sentigon_api/app.py:2666-2717 | adds after the models that were there exactly one for each new name, the first of the list that has it, in whatever stage it is given |
| `Governance.RegistersEachName` | services/api/sentigon_api/app.py:2666-2688 | afterwards the names are those that were there and those of the list, and none of the added ones repeats an earlier name |
| `Governance.Registry.PromoteModel` | services/api/sentigon_api/app.py:2792-2844 | the console's promotion: not found, blocked without a passing evaluation unless forced, otherwise the model is its role's champion and the others retire |
| `Governance.PromotionIsExclusive` | services/governance/sentigon_governance/eval.py:88-104 | afterwards the role's champions are the promoted model alone, provided it exists and has that role, and none otherwise |
| `Governance.PromotionSparesOtherRoles` | services/governance/sentigon_governance/eval.py:101-103 | another role keeps a sole champion exactly when the promoted model is not of that role beside another champion |
| `Governance.OneChampion` | services/governance/sentigon_governance/eval.py:53-104 | over every run of registrations, also of champions where the role has none, stage changes, decided promotions and console promotions each role has at most one champion |
| `Governance.RegisterKeepsSoundIff` | services/api/sentigon_api/app.py:2671-2688 | a registration keeps this if and only if it does not add a champion under a new name to a role that has one |
| `Governance.DefaultsAreSound` | services/api/sentigon_api/app.py:2657-2688 | registering the default models into an empty registry gives exactly three roles one champion each |
| `Governance.RegisteringIsIdempotent` | services/api/sentigon_api/app.py:2668-2676 | registering the same models again changes nothing, whatever became of their stages |
| `Governance.AtMost400Wins` | services/governance/sentigon_governance/eval.py:75-84 | with fixed metrics, from any sound registry, a role sees at most 400 promotions over an incumbent however long the run, and at most 400 more for each console promotion |
| `Governance.BeatenNeverReturns` | services/governance/sentigon_governance/eval.py:53-104 | a champion that was beaten is never its role's champion again unless the console promotes in that role |
| `Governance.EqualScoresNeverWin` | services/governance/sentigon_governance/eval.py:30-50 | over every run in which all models score the same, as they do while none has an aggregate, no incumbent is ever beaten |

## Left out

- Network, Kafka client, Postgres, Qdrant, MinIO, SMTP, ffmpeg, GStreamer and HTTP: only success, failure and order
  of their calls appear, as steps or parameters.
- SHA-256 and HMAC: the hash is an arbitrary function with 64-character results. The unique constraint on content
  hashes is an assumption of `Vault.ReorderingUndetectedIff` only; appends are not rejected for it.
- Floating-point rounding: geometry, speeds, times and metrics are exact reals; only the four-decimal rounding of
  stored metrics is explicit.
- Object aliasing: tracks, zone states, table rows and sources are values held in maps and sequences that are
  replaced on update, so two references to one Python object are not captured.
- Consumer groups: one partition with one consumer at a time; rebalancing and concurrent workers are absent, and so
  is a dispatch race between two processes, against which the dispatch table has no unique constraint on the incident.
- Transactions run at READ COMMITTED, where the tail read sees what was committed before it; under a snapshot taken at
  or before the lock statement the tail could be stale. The sweeps of dispatch and escalation are one step each: lost
  updates between a sweep in progress and an endpoint are outside the model.
- Notifications, snapshots, risk scores and published messages: effects on the outside that the proved state does
  not depend on.
- The other evaluators (tailgating, loitering, crowd, speed, abandoned objects, anomalies, plates, handoffs): thresholds
  over the state whose history is proved here; their gates are covered by the gate of `Firing.dfy`.
- Schedule windows and signature lookup enter `_fire` as inputs; the local-time conversion of the dedup window's lower
  bound is taken to be the identity.
- OneOpenIncidentPerGroup: one clock for all operations, as for `DedupedIffHarmless`; the gate's theorems allow every
  camera its own.
- Incidents created or regrouped by other services, and concurrent `_fire` calls between the dedup query and the
  insert, for which the one-open-incident property is not claimed.
- `positions`, `last_bbox`, zone coverage and peak occupancy of tracks and zones.
- The zone cache of `ZoneIndex` and its refresh: `Hits` and `HitsMask` take the zones as given.
- Exceptions inside the capture loop, file names, reconnect backoff and statistics other than two counters.
- EditUndetectedIff: covers rewrites that keep the row's place in seq order; a rewrite that moves it is a deletion and an
  insertion, each of which has its own lemma on intact ledgers.
- GlitchRejected: bounds that the true steps meet only when all of them are usable; with steps skipped for other reasons
  `MinorityRejected` applies to the usable ones.
- Escalation levels kept in incident attributes are taken to be written by the escalator only; its counters and
  on-call windows are absent.
- Configuration entries of type push, which only a hand edit can create, and media-server listings that name a path twice.
- Relay processes, probing details, the slug and URL-scheme patterns and device-number matching: their results are
  inputs of the calls.
- That an evaluation of the harness belongs to a model is an assumption: bench/eval_harness.py:89-100 links its runs to
  none, and the runs linked by bench/detector_eval.py, bench/shadow_infer.py and the console hold no aggregate. With
  these writers alone both sides count as 0, and `Governance.EqualScoresNeverWin` applies.
- New evaluation runs for a model already registered: the run theorems fix each model's metrics. Two models of one name,
  which every registration avoids.
- Login throttle, RBAC, backoff times, risk scoring, migrations, the signature catalog, the web console, the MCP server
  and the inference pipelines.
