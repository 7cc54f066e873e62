# ITDN: protocols and invariants in Dafny

ITDN watches removable devices on a fleet of machines.  An agent on each machine takes snapshots of
the devices, writes a hash-chained audit log and delivers events to a server through a durable
queue.  The server rate-limits callers, stores events in tables, keeps one audit chain per host,
runs detection rules, deduplicates alerts, scores risk and answers queries.

This project models the parts whose guarantees do not follow from reading one function, and proves
what they keep over every run and every interleaving.

| file | models |
|---|---|
| `DeliveryQueue.dfy`, `Transport.dfy` | the durable queue and the transport that drives it, as classes |
| `DeliveryProtocol.dfy` | the same calls as interleaved steps of any number of enqueuers and flushers, with crashes |
| `HashChain.dfy` | the audit verifier's loop and what acceptance means |
| `AuditLog.dfy` | the agent's log: encryption, loading, writing, restarting |
| `AuditTable.dfy`, `AuditPurges.dfy` | the server's audit table: appends for many hosts, and what purges leave of the chains |
| `Anchors.dfy` | counter-signing of chain heads and what a signed head pins down |
| `RateLimiter.dfy`, `LateRequests.dfy` | the sliding-window limiter, and what it costs that requests may get the lock late |
| `Tables.dfy`, `Rules.dfy`, `Alerts.dfy`, `Ingest.dfy` | event ingest: rules, tables, deduplication, risk, counters |
| `IngestHistory.dfy` | what an ingest run has done, said by its events alone: firings, alerts, risk per host |
| `ConcurrentAlerts.dfy` | deduplication when any number of requests look and insert at the same time |
| `TextOrder.dfy`, `Timeline.dfy` | timestamps compared as text, and the truncated merge of the timeline query |
| `ThreatFeed.dfy` | the two-lock lazy load |
| `AttackGraph.dfy` | building the graph and detecting the exfiltration pattern |
| `SnapshotMonitor.dfy` | the polling device monitors |
| `Data.dfy` | JSON values, options, splitting at a colon |

## How the models are built

Code that changes state is a class (`PersistentQueue`, `EventTransport`, `LocalAuditLogger`,
`AuditChainTable`, `AnchorTable`, `Limiter`, `IngestServer`) or a method with the loop the source
has.  Each is proved against a function of its input or old state; the theorems are about that
function, over runs, which are sequences of operations.  Protocols whose lock sections interleave
(delivery, deduplication, threat feed) are state machines in which a step of a thread that is
elsewhere does nothing, so every sequence of steps is a run.

Assumptions, all of them stated as preconditions:

* Digests (`HashChain.Hasher`) are an arbitrary function.  `Trusted(H, records)` says of the
  records a theorem names, and of no others, that their digests do not collide and are neither
  empty nor the genesis value.
* Ciphers and signatures are arbitrary functions too.  `Invertible` says that decryption undoes
  encryption; `Genuine` says of the keys and heads a theorem names that a signature verifies
  exactly for what was signed, under the matching key.
* Order of delivery and redelivery are stated for one flush at a time.  `stop` can break this
  (agent/transport.py:129-133), because its join times out.  `LossBound` holds for any number of
  flushers and says what overlapping flushes can cost; `OverlappingFlushes` is the exact cost of
  one overlap.
* That the rate limiter decides as the full history would, holds every window and accepts as many
  requests as possible, is stated for requests that get the lock in the order of their times, among
  those from one address.  The clock is read before the lock (server/auth.py:182-185).
  `NoSkewedWindowExceeds` holds for any delay between the two; `SkewIsExact`, `HistoryIsExact` and
  `AcceptanceIsExact` say for each guarantee exactly what a delay costs.  With a limit of one the
  first two guarantees hold in any order.
* The audit theorems hold on any clock.  That a host's live rows are one linked run is stated for a
  clock that does not go back; `AlwaysOneRunIffNeverHole` is the exact condition.
* Deduplication needs two things of a run, on whatever clock: no firing inserts at an earlier time
  than it checked, and no purge reaches into the window before a later insertion.  `RetentionNeeded`
  gives the retention that ensures this, exactly, for a clock that goes back by a given amount.
  The ingest model handles one event after the other; `ConcurrentAlerts` drops that for
  deduplication.

## Where the code and its promises part

* `stop` is commented as draining the remaining events (agent/transport.py:133); it flushes one
  batch.  `EventTransport.Stop` says exactly when that drains the queue, and `StopLeavesTheNewest`
  is a queue of 101 rows that it never drains.
* `commit` deletes the oldest rows, not the rows that were posted.  `CommitRemovesOnlyItsBatch` says
  when the two are the same, and `LossBound` what the difference can cost.
* Two requests that look before either inserts repeat an alert; a window never holds more
  equal alerts than there are handlers (`OnePerHandler`), and can hold that many (`BoundReached`).
* With several enqueuers the queue can exceed its limit by one less than their number
  (`QueueBoundReached`).
* `verify_chain` does not see that the end of a log is missing (`DrawnAcceptedIffPrefix`,
  `RemovedRecord`); a logger that cannot read its last line restarts the chain (`OtherKey`).
* A purged host's chain no longer starts at the genesis value, so the verifier reports one gap,
  before its first live row (`LiveRowsAreOneRun`).  When the clock went back, a purge can also
  delete rows from the middle of a chain (`ClockBackBreaksRun`); the verifier then reports one gap
  for each place (`LiveRowsArePartOfOneChain`).
* The unique constraint on record hashes spans hosts.  The server never violates it, because events
  carry their host (`EveryAppendAddsOneRow`); in general a record is lost exactly when another host
  has a twin of it (`AppendAddsUnlessTwin`, `SharedEventIsLost`).
* A present but unusable TLS key falls through to the anchor key.  A signature made with the
  development key never verifies (`VerifiesIffSameHeadAndKey`).
* Nothing keeps `retention_days` above the deduplication window and what the clock may go back;
  below that, alerts repeat too soon (`RetentionNeeded`).
* A request that gets the lock late can overfill a window (`OutOfOrderExceeds`), and can make the
  limiter turn away half of what the limit allows (`OutOfOrderTurnsAway`).
* `unknown_device` is judged on stored events of any type: a pair that is first seen disconnecting
  never fires (`UnknownDeviceFirings`).
* Risk scores use a weight per rule name and never decay, whatever the severity of the alert.

## Model

| member | source | states |
|---|---|---|
| DeliveryQueue.DeleteOldest | agent/retry_queue.py:97-110 | deleting by the selected ids removes exactly the oldest rows, and keeps the order of the others |
| DeliveryQueue.PersistentQueue.constructor | agent/retry_queue.py:49-74 | opening the file again finds everything an earlier process left pending |
| DeliveryQueue.PersistentQueue.Put | agent/retry_queue.py:76-83 | appends the event behind everything pending; ids keep ascending |
| DeliveryQueue.PersistentQueue.Peek | agent/retry_queue.py:85-95 | returns the oldest pending events, at most `limit`, and removes nothing |
| DeliveryQueue.PersistentQueue.Commit | agent/retry_queue.py:97-110 | removes the `count` oldest pending events, all of them when there are fewer, and no other |
| DeliveryQueue.PersistentQueue.Size | agent/retry_queue.py:112-118 | the number of pending events |
| DeliveryProtocol.LossBound | agent/transport.py:105-152 | over all interleavings of any number of enqueuers and flushers with crashes, pending rows are a suffix of everything put, in order, and events removed without ever being in a successful post are at most as many as evictions removed plus, for each commit, the rows of its batch that were in a batch another flusher committed since its peek |
| DeliveryProtocol.OneFlusherLossBound | agent/transport.py:141-152 | with one flush at a time evictions alone bound the loss |
| DeliveryProtocol.AtLeastOnce | agent/transport.py:141-152 | in a run without evictions, every event that left the queue was in a successful post |
| DeliveryProtocol.CrashKeepsRows | agent/retry_queue.py:49-74 | a crash keeps the rows and nothing else: every enqueuer and every flusher starts anew, and posts that wait for their commit are torn |
| DeliveryProtocol.CommitRemovesOnlyItsBatch | agent/retry_queue.py:97-110 | a commit removes rows of the flusher's own batch only, if and only if nothing was removed since the peek, or no row is pending beyond the batch, or none at all |
| DeliveryProtocol.OnlyTornPostsAreResent | agent/transport.py:141-147 | a successful post lies wholly before every later attempt unless a crash fell between that post and its commit |
| DeliveryProtocol.CrashFreePostsIncrease | agent/transport.py:141-152 | without crashes, successful posts are disjoint, strictly increasing ranges of the put history |
| DeliveryProtocol.QueueBound | agent/transport.py:105-115 | with k enqueuers whose check, eviction and put interleave, the queue never exceeds its limit plus k - 1, or what the reopened file held if that was more |
| DeliveryProtocol.QueueBoundReached | agent/transport.py:105-115 | the limit plus k - 1 is reached for every k and every limit |
| DeliveryProtocol.OverlappingFlushes | agent/transport.py:129-133 | two flushes that peek the same rows and both commit lose exactly the rows beyond the first batch, up to one more batch; nothing if and only if one batch holds the whole queue |
| Transport.EventTransport.Enqueue | agent/transport.py:105-115 | uninterrupted, gives up the oldest row of a full queue and appends the event |
| Transport.EventTransport.Flush | agent/transport.py:141-152 | removes a batch if and only if it was posted, and exactly the batch that was |
| Transport.EventTransport.Loop | agent/transport.py:154-157 | what was sent, followed by what is pending, is what was pending before; one batch is sent for each success, and the queue is drained if and only if that many batches hold it |
| Transport.EventTransport.Stop | agent/transport.py:129-135 | once the loop has ended, the last flush drains the queue if and only if it was empty, or the flush was answered and one batch holds everything |
| Transport.StopLeavesTheNewest | agent/transport.py:129-135 | with one row more than a batch, `stop` leaves the newest one behind, whatever the answer |
| Transport.UninterruptedEnqueue | agent/transport.py:105-115 | the enqueuer's steps with nothing in between have the effect of the method |
| Transport.UninterruptedFlush | agent/transport.py:141-152 | so do the flusher's |
| HashChain.VerifyChain | tools/verify_chain.py:55-88 | the loop reports, in order, the errors of each record against the hash carried to it |
| HashChain.ReportedIffWrong | tools/verify_chain.py:61-88 | of any list, trusted or not, a record is reported as tampered with if and only if the digest of the rest of it is not its hash, and as following a gap if and only if its previous hash is not the last non-empty hash before it, or the genesis value; one report never hides the other |
| HashChain.ReportedInOrder | tools/verify_chain.py:61-88 | every report is made once, in the order of the records, the gap before the tampering |
| HashChain.AcceptedIffLinked | tools/verify_chain.py:55-88 | no error is found if and only if each record carries its own digest and its predecessor's hash, back to the genesis value |
| HashChain.HashesDistinct | tools/verify_chain.py:44-88 | in a linked list no hash occurs twice, nor does the genesis value |
| HashChain.TamperEvidence | tools/verify_chain.py:55-88 | two accepted lists that end in the same record hash are identical, field by field |
| HashChain.AnchoredPrefix | tools/verify_chain.py:55-88 | an accepted log that contains an anchored head is, up to that record, the log as it was when the head was anchored, and contains the head once |
| HashChain.DrawnErrors | tools/verify_chain.py:55-88 | of records drawn from a chain with any omission, reordering or repetition, the verifier reports exactly one gap at each that does not follow, in the chain, the one drawn before it |
| HashChain.DrawnAcceptedIffPrefix | tools/verify_chain.py:55-88 | such records are accepted if and only if they are a prefix of the chain |
| HashChain.ChangedRecord | tools/verify_chain.py:69-86 | changing what one record says is reported at that record and nowhere else: as tampering, and as a gap too if its previous hash was changed |
| HashChain.RemovedRecord | tools/verify_chain.py:66-88 | removing a record gives exactly one error, at its successor; removing the last one gives none |
| HashChain.ReplacedHash | tools/verify_chain.py:61-88 | replacing a record hash, by the empty string too, gives an error there and one at the successor, if there is one |
| HashChain.RemovedBeginning | tools/verify_chain.py:61-88 | removing a proper beginning gives exactly one error, at the first record left |
| AuditLog.RoundTrip | agent/crypto.py:64-137 | decryption returns what was encrypted, needs the key, and passes a plaintext record through unless the record looks like an envelope |
| AuditLog.LoadFromFile | tools/verify_chain.py:95-116 | returns the readable records in order; ends the program if and only if some encrypted line meets no key |
| AuditLog.SkippedLines | tools/verify_chain.py:95-116 | lines of an accepted log made unreadable go unnoticed by the verifier if and only if every line after them is unreadable too |
| AuditLog.LocalAuditLogger.constructor | agent/logger.py:48-56 | continues the chain of the file it opens |
| AuditLog.LocalAuditLogger.LoadTailHash | agent/logger.py:58-73 | the chain head is the hash of the last line that is not blank, or the genesis value when that line cannot be read |
| AuditLog.LocalAuditLogger.WriteEvent | agent/logger.py:84-111 | appends one record linked to the head and moves the head to it; a failed disk write changes nothing; a log that was one chain ending in the head stays so |
| AuditLog.EveryRunIsAccepted | agent/logger.py:58-117 | over every run of successful and failed writes, restarts and one switch to encryption, the decrypted file is accepted and its last hash is the chain head |
| AuditLog.LogSaysWhatWasWritten | agent/logger.py:84-111 | over every run the log has exactly one record for each successful write, in order, each with the event that was written; a line needs a key if and only if one had been set when it was written |
| AuditLog.OtherKey | agent/logger.py:64-73 | a restart under another key or none continues the chain if and only if it can read the last line |
| AuditTable.AuditChainTable.TailServerHash | server/database.py:419-428 | finds the hash of the host's latest row, or the genesis value |
| AuditTable.AuditChainTable.AppendAuditRecord | server/database.py:431-454 | appends the row unless its hash is recorded already, and returns a hash that is recorded either way |
| AuditTable.AuditChainTable.PurgeOldRecords | server/database.py:897-920 | removes exactly the rows older than the cutoff and returns their number |
| AuditTable.AppendAddsUnlessTwin | server/database.py:431-454 | over every run of appends and purges, on any clock, the constraint violation is swallowed if and only if another host has a live row built on the same hash from the same event; otherwise exactly one row is added |
| AuditTable.EveryAppendAddsOneRow | server/database.py:431-454 | with events that carry their host, every append of every run, on any clock, adds exactly its row |
| AuditTable.SharedEventIsLost | server/database.py:440-453 | two hosts whose chains start with the same event: the second record is not stored |
| AuditPurges.LiveRowsArePartOfOneChain | server/database.py:419-454 | over every run, on any clock, a host's live rows are, in order, part of one chain linked from the genesis value, all of it until the first purge; the verifier reports exactly one gap at each whose predecessor in that chain is not the live row before it |
| AuditPurges.OneRunIffLatestPart | server/database.py:897-920 | over every run they are one linked run if and only if they are the latest part of that chain; the verifier then reports one gap at most, before the first |
| AuditPurges.AlwaysOneRunIffNeverHole | server/database.py:897-920 | they are one linked run at every moment if and only if no purge deletes one of them between two that it keeps |
| AuditPurges.LiveRowsAreOneRun | server/database.py:419-454 | on a clock that does not go back, or without purges, they are one linked run, the latest part of that chain |
| AuditPurges.ClockBackBreaksRun | server/database.py:897-920 | appends for one host whose times let a purge keep two and delete one between them: what is left is not one run |
| AuditPurges.PurgeIsDrop | server/database.py:897-920 | purging rows in time order deletes a beginning of them |
| AuditPurges.PurgeKeepsRunIffNoHole | server/database.py:897-920 | over every run, on any clock, one more purge leaves a host's linked run one run if and only if it deletes no row between two that it keeps |
| Anchors.VerifiesIffSameHeadAndKey | server/database.py:590-692 | a signature verifies under later settings if and only if the head is the one signed and the verifier's key belongs to the key that was preferred; development signatures never do |
| Anchors.SignsWithBestKey | server/database.py:590-643 | signing is refused if and only if there is no usable key and unsigned anchors are not allowed; otherwise the signature names the best kind there is a key for |
| Anchors.VerifiesOnlyWithKey | server/database.py:660-692 | any signature that verifies, whoever made it, names RSA where there is a certificate or HMAC where there is an anchor key, and has a digest |
| Anchors.SignedLogIsPinned | server/database.py:646-692 | an accepted later log with a record whose hash an anchor's signature verifies for is, up to that record, the agent's log as it was when its head was signed |
| Anchors.AnchorTable.InsertAnchor | server/database.py:695-715 | stores an anchor if and only if it could be signed; without the development setting, and with a certificate that belongs to the private key if there is one, every stored anchor verifies |
| RateLimiter.Limiter.Handle | server/auth.py:180-201 | evicts, then accepts and records the request if and only if fewer than the limit are left |
| RateLimiter.DecidesByHistory | server/auth.py:181-201 | a request that is not earlier than those before it from its address, or any request under a limit of one, is accepted exactly when counting all ever accepted from there would accept it |
| RateLimiter.AddressesAreIndependent | server/auth.py:186-201 | what one address gets is what it would get if no other sent anything, on every stream |
| RateLimiter.AcceptedIsGreedy | server/auth.py:181-201 | in the order of the times, or with a limit of one, what is accepted from an address is what counting its history accepts |
| RateLimiter.OneIsSpaced | server/auth.py:186-201 | with a limit of one, on every stream, accepted times are at least a window apart |
| RateLimiter.NoSkewedWindowExceeds | server/auth.py:180-201 | when no request gets the lock more than a given delay after a later one from its address, no half-open window shorter than the configured one by that delay ever holds more than the limit of accepted requests |
| RateLimiter.NoWindowExceeds | server/auth.py:173-201 | with requests in time order, or a limit of one in any order, no half-open window of the configured length ever holds more than the limit of accepted requests |
| RateLimiter.GreedyIsOptimal | server/auth.py:181-201 | no choice among the same requests that keeps every window within the limit is larger |
| RateLimiter.AcceptsAtLeastAsMany | server/auth.py:181-201 | at every moment of a stream in time order the limiter has accepted at least as many as any policy within the limit |
| LateRequests.SkewIsExact | server/auth.py:180-201 | for every limit above one and every delay up to the window, windows of a given length hold at most the limit on every stream with that delay if and only if they are shorter than the configured one by at least the delay |
| LateRequests.OutOfOrderExceeds | server/auth.py:182-185 | for every limit above one and every delay up to the window, a stream whose last request gets the lock late and overfills any longer window |
| LateRequests.OneIsExact | server/auth.py:180-201 | with a limit of one, windows of a given length hold it on every stream, in any order, if and only if they are no longer than the configured one |
| LateRequests.HistoryIsExact | server/auth.py:181-201 | for every limit above one, the limiter decides by the full history on every stream with a given delay if and only if that delay is zero |
| LateRequests.AcceptanceIsExact | server/auth.py:181-201 | for every limit, the limiter accepts at least as many as any policy within the limit on every stream with a given delay if and only if that delay is zero |
| LateRequests.OutOfOrderTurnsAway | server/auth.py:182-185 | for every limit and every delay up to the window, a stream of which the limiter accepts the limit and a policy within the limit twice as many |
| Alerts.AlertsAreApart | server/alert_manager.py:36-56 | over every sequential run, on any clock, in which no firing inserts earlier than it checked and no purge reaches into the window before a later insertion, persisted alerts with one host, device and rule are more than the window apart |
| Alerts.EveryFiringIsCovered | server/alert_manager.py:36-56 | on any clock, when a firing is done, and from then on, there is a persisted alert with its key from at most one window before its check, and no later than its own insertion if the clock did not go back |
| Alerts.AlertRateBound | server/alert_manager.py:36-56 | in such a run, at most T/(W+1) + 1 such alerts in any span of T seconds |
| Alerts.RetentionNeeded | server/database.py:897-920 | on a clock that goes back by at most a given amount, with purges that each keep at least a given retention, all runs keep alerts apart if and only if that retention is at least the window and that amount |
| ConcurrentAlerts.OnePerHandler | server/alert_manager.py:36-56 | over every interleaving, on any clock, of k handlers whose clock reading, look-up and insert are separate steps, if no handler inserts earlier than it checked and no purge made before it looked reaches into the window before its insertion, no window holds more than k alerts with one host, device and rule |
| ConcurrentAlerts.TimelyIsFair | server/alert_manager.py:36-56 | a clock that does not go back and purges that keep the window ensure this |
| ConcurrentAlerts.RateBound | server/alert_manager.py:36-56 | then at most k * (T/(W+1) + 1) such alerts in any span of T seconds |
| ConcurrentAlerts.BoundReached | server/alert_manager.py:37-49 | for every k, k handlers that all look before any inserts persist k equal alerts in one second |
| ConcurrentAlerts.UninterruptedFiring | server/alert_manager.py:36-56 | a handler's steps with nothing in between are one firing of the sequential model |
| Tables.PutLookup | server/database.py:782-811 | an upsert changes the row of its key and no other, and keeps one row per key |
| Rules.OneAlertPerRule | server/detection/rules.py:273-295 | each rule that fires raises one alert, with its own severity, and no other rule raises any |
| IngestHistory.FiresIffCalled | server/detection/rules.py:50-254 | over every run, each of the eight rules fires on an event if and only if the event and those before it call for it, in terms of the events' own fields, counts, sums and times |
| IngestHistory.FiredIsByHistory | server/detection/rules.py:257-295 | the alerts of an event are those, in rule order and with the rules' severities |
| IngestHistory.AlertsAnswerEvents | server/alert_manager.py:33-56 | an event adds an alert of a rule if and only if the rule fires on it and no alert of that rule for its host and its device is stored from at most one window before; what it adds is for its host and device, at its time, with the rule's severity |
| IngestHistory.FiringIsAnswered | server/alert_manager.py:36-56 | a rule that fires on an event leaves, from then on, an alert of that rule for its host and device that is at most one window older |
| IngestHistory.EveryAlertHasAnEvent | server/alert_manager.py:43-56 | every persisted alert is for some event on which its rule fired, with its host, device and time |
| IngestHistory.RiskIsByHost | server/scoring/risk_scoring.py:12-38 | over every run, each host's score is what the alerts of its own events were worth, by the weights of the rules, suppressed ones included |
| Ingest.IngestServer.EvaluateRules | server/detection/rules.py:273-295 | runs the rules in order on what is stored before the event and counts each that fires |
| Ingest.IngestServer.HandleAlerts | server/alert_manager.py:27-56 | each alert is either suppressed, or persisted and counted |
| Ingest.IngestServer.ScoreEvent | server/scoring/risk_scoring.py:27-38 | adds the weights of the alerts to the host's score, returns what is then stored for it, and changes no other host's |
| Ingest.IngestServer.HandleEvent | server/routers/events.py:57-94 | the order of evaluation, storage, audit, baselines, alerts and risk for one event |
| Ingest.IngestServer.IngestEvents | server/routers/events.py:57-94 | a batch is its events one after the other, all of them counted as stored |
| Ingest.AuditMatchesEvents | server/routers/events.py:63-67 | over every run each host's audit chain spells that host's stored events in order, and the verifier accepts it |
| Ingest.BaselineIsHistory | server/database.py:782-811 | one baseline row per host and device, with first and last sighting and their number; `device_is_new` agrees with its absence |
| Ingest.UserBaselineIsHistory | server/database.py:927-970 | the same for the per-user baseline |
| Ingest.UnknownDeviceOnce | server/detection/rules.py:96-113 | `unknown_device` does not fire after an earlier event of the same host and device |
| Ingest.UnknownDeviceFirings | server/routers/events.py:60-65 | over every run it has fired exactly once for each host and device whose first event was a connection |
| Ingest.UserUnknownDeviceOnce | server/detection/rules.py:230-254 | `user_unknown_device` stops firing after the first event if and only if host and device are named, as server/schema.py:23-24 demands of every event |
| Ingest.FiringsConserved | server/metrics.py:59-70 | for every rule, firings are persisted plus suppressed alerts, and persisted alerts are those counted as fired |
| Ingest.RiskConserved | server/scoring/risk_scoring.py:27-38 | risk summed over all hosts is the sum over rules of weight times firings, suppressed ones included |
| Ingest.AlertsAreRun | server/alert_manager.py:36-56 | the alerts of an ingest run are those of a run of the deduplication model, so its theorems apply |
| Ingest.IngestDeduplicates | server/alert_manager.py:36-56 | in every ingest run, on any clock, no alert repeats within the window |
| TextOrder.TimestampOrder | server/database.py:48-55 | comparing two formatted timestamps as text is comparing the moments |
| TextOrder.FormatText | server/database.py:48-55 | the text of a moment: year, month, day, hour, minute and second in two-digit fields with their separators |
| Timeline.SortIsStable | server/database.py:547 | the sort is sorted and keeps the order of items with equal timestamps |
| Timeline.StableSortUnique | server/database.py:547 | any sorted list that keeps that order is that sort |
| Timeline.TakeMerge | server/database.py:524-548 | the first items of a merge depend only on as many first items of both parts |
| Timeline.TimelineIsTruncatedSort | server/database.py:524-548 | the timeline is the cut of the stable sort of all matching events and alerts, for every limit |
| Timeline.TimelineHoldsWhatWasAskedFor | server/database.py:497-548 | for every limit that is not negative, the timeline holds what was asked for by host, device and time and nothing else, each row as often as it is stored, in order of time; what the limit cuts off is not earlier than anything it keeps |
| ThreatFeed.LoadedAtMostOnce | server/detection/threat_feed.py:93-134 | over every interleaving of lookups and reloads at most one first load succeeds, another starts only after one failed, and every answer is about the feed installed last when it was given |
| ThreatFeed.FeedComesFromSources | server/detection/threat_feed.py:93-106 | the feed in use is the one installed last, and every one installed was read from the sources |
| ThreatFeed.NeverDeadlocked | server/detection/threat_feed.py:93-134 | while a thread is unfinished, some thread has a step |
| ThreatFeed.EveryScheduleEnds | server/detection/threat_feed.py:93-134 | no schedule of effective steps is longer than nine steps a thread |
| AttackGraph.BuildAttackGraph | server/detection/attack_graph.py:13-60 | the loop builds the graph of the timeline |
| AttackGraph.GraphWellFormed | server/detection/attack_graph.py:13-60 | node ids are unique, no edge occurs twice, every edge joins nodes that are there |
| AttackGraph.EdgesAreTimeline | server/detection/attack_graph.py:27-60 | an edge is in the graph if and only if some event of the timeline calls for it: from the machine to its device, and from the device to what it did |
| AttackGraph.NodesAreTimeline | server/detection/attack_graph.py:21-60 | there is a node for the machine and for every device and action of the timeline, and each node is one of these |
| AttackGraph.DetectExfilPattern | server/detection/attack_graph.py:63-101 | the loop finds the devices the pattern names |
| AttackGraph.DeviceIdRoundTrip | server/detection/attack_graph.py:74-92 | a device id, with colons in it or not, comes back out of its node id |
| AttackGraph.DetectsCyclingDevices | server/detection/attack_graph.py:13-101 | the finding is the sorted set of non-empty device ids with both a connected and a disconnected event in the timeline |
| SnapshotMonitor.PollMonitorLoop | agent/monitor/usb_monitor.py:280-304 | the loop emits, poll by poll, what appeared and what vanished |
| SnapshotMonitor.EventsAlternate | agent/monitor/usb_monitor.py:283-304 | for each path the events alternate, from a disconnect if and only if it was in the first snapshot, and the last one says whether it is there now |
| SnapshotMonitor.ReplayReproducesSnapshots | agent/monitor/usb_monitor.py:283-304 | replaying the events from the first snapshot's keys gives the last snapshot's keys, after every poll |
| SnapshotMonitor.EventsDescribeDevices | agent/monitor/usb_monitor.py:288-302 | every event emitted is the new snapshot's description of a device that was not there, or the old one's of a device that is gone, marked as disconnected at the time of the poll |
| SnapshotMonitor.ConnectsComeFirst | agent/monitor/usb_monitor.py:288-302 | one more poll adds what appeared, all of it before what vanished |

## Left out

* HTTP, TLS, SMTP, Slack, Splunk and Elasticsearch: a post is a success or a failure, and one that
  reached the server but failed for the agent is a failure.
* SHA-256, HMAC, RSA, AES-GCM, JSON text and hexadecimal: arbitrary functions under the assumptions
  above.
* SQL: tables are sequences in id order, one transaction is one step, `ORDER BY` leaves ties in id
  order and a negative `LIMIT` is none, as in SQLite.
* Schema validation, settings, roles, event normalisation, host time zones, the notification
  severity gate: single-branch facts.
* `anomaly.py`: an external model and floating point.
* The after-hours window, the honeypot list and the threat feed's answer are inputs of a rule's
  evaluation (`Rules.Env`); one clock reading serves one ingested event.
* Alert descriptions, exported finding text, error message text and record labels.
* Requests interleaved within the ingest of one event, except for alerts.
* Log lines that are JSON but not an object, and hashes in a record that are not strings: the
  verification tool raises on them, the model reads such a hash as missing.
* Disk writes that fail after some bytes have landed; a log key of invalid length.
* Server rows are records of previous hash, event and record hash; the raw rows, as the REST
  endpoint returns them, have other columns, which the verifier would hash too.
* `verify_anchor` raises on a digest that is not ASCII; the model refuses it.
* `get_anchors` and the anchor scheduler.
* `add_entry`, `get_feed` and the parsing and merging of feed sources.
* `bt_monitor.py:146-165` is the same loop as the one modelled for USB; the udev, WMI, ETW and eBPF
  backends are foreign calls.
- Ingest.IngestServer.IngestEvents: does not model an event whose handling raises; the source logs it and goes on, with the effects it had up to then.
- RateLimiter.NoWindowExceeds: asks for requests in the order of their times for limits above one, because the clock is read outside the lock; RateLimiter.NoSkewedWindowExceeds does not, and LateRequests.SkewIsExact says what is lost.
- RateLimiter.DecidesByHistory: asks for the same of the requests from one address, as does RateLimiter.AcceptedIsGreedy; LateRequests.HistoryIsExact shows that no delay at all can be allowed.
- RateLimiter.AcceptsAtLeastAsMany: asks for the same for every limit; LateRequests.AcceptanceIsExact shows that no delay at all can be allowed.
- Alerts.AlertsAreApart: asks that no purge reaches into a window, which the retention that Alerts.RetentionNeeded gives ensures, and a shorter one does not.
- AuditPurges.LiveRowsAreOneRun: asks for a clock that does not go back between appends when rows are purged; AuditPurges.OneRunIffLatestPart and AuditPurges.AlwaysOneRunIffNeverHole do not.
- DeliveryProtocol.AtLeastOnce: one flush at a time, as are DeliveryProtocol.OnlyTornPostsAreResent and DeliveryProtocol.CrashFreePostsIncrease; two overlapping flushes post the same rows twice.
