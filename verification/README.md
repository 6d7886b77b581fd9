# Verification of the aggregation service's cohort bookkeeping

This project models, in Dafny, how the aggregation service keeps its books about cohorts, and proves what that
bookkeeping promises over whole runs. The service is event-driven: a runner announces what happens to a cohort, a
broadcaster reports what the network says, the operator acts, and a handful of bounded tables remember the outcome.

| file | what it covers |
|---|---|
| `OrderedMap.dfy` | the bounded insertion-ordered `Map` all tables use: exact retention, and the one mutable class |
| `Cohorts.dfy`, `KillSwitch.dfy`, `Eviction.dfy` | the one-way broadcast switch consulted at three moments of a cohort's life, its evidence, and how that is lost |
| `Broadcast.dfy`, `Confirmation.dfy` | retry and confirmation loops, the protocol with many cohorts interleaved and a stop anywhere, and what each act is owed |
| `Coordinator.dfy` | switch and protocol composed: what may ever reach the network, and what must |
| `AnchorState.dfy`, `FateFold.dfy`, `LiveEntries.dfy`, `FateRetention.dfy`, `CohortMonitor.dfy` | the two folds over the frames, their agreement, what they retain, the console's reads |
| `FundingWatch.dfy`, `FundingSurface.dfy` | classifying a beacon address, the poll loop, the views behind the anonymous funding bit |
| `PublicBit.dfy` | kill switch, funding surface and monitor driven by the same happenings, and the bit read from all three |
| `Acceptance.dfy`, `AcceptanceRaces.dfy`, `AcceptanceSchedules.dfy` | the acceptance ledger and the content-addressed store, sequential and interleaved |
| `Sorting.dfy`, `Roster.dfy` | the fixed-roster gate and the address it protects |
| `Encoding.dfy`, `Store.dfy`, `Persist.dfy`, `Resolve.dfy`, `Genesis.dfy` | what is written under one encoding is found under another; the bounded resolution driver; genesis staging |
| `MemberResolution.dfy`, `CasResolution.dfy` | persistence and driver together; a member of a CAS cohort end to end, and over an untrusted store |
| `OperatorAuth.dfy` | the login throttle, with logins that overlap while their bodies are read, and the session registry |
| `AdvertSlot.dfy` | the transport's single advert slot and its two writers |

`dafny verify dfyconfig.toml` checks everything.

Where the source changes an object in place the model is a class whose methods are proved against functions on values;
whole runs are recursive functions over histories of events, and the main results are lemmas about those. Interleaved
requests and cohorts are state machines whose steps are the stretches between two awaits.

## Assumptions

- Hashes, signatures, tree proofs, address computation and key resolution are functions passed in. Digests have 32
  bytes. Collision freedom is assumed only where a lemma names it.
- The base64url decoder rejects padding and non-zero spare bits (RFC 4648 sections 3.2, 3.5 and 5). Hex is
  section 8, lower case.
- The clock does not run backwards within a history. In `BroadcastAndConfirm` it reaches the deadline eventually.
- The builder selects the deepest confirmed output above dust, the earliest listed among equally deep ones.
- Subscribers of the broadcaster do not throw. One that does turns an announcement or an anchoring into a failure frame
  (`packages/service/src/broadcast.ts:373-395`), which the frame grammar and the agreement of the folds leave out.
- The runner completes the signing of a cohort once, and signs the transaction it was given by the tx-data hook.
- An acceptance object that lacks a field reads that field as empty, and an empty participant resolves to no key.

## Where the code and its comments differ

- `packages/service/src/index.ts:1155-1157` says that a cohort's verdict cannot change because both its times are fixed.
  The advertise time lives in a table of 24, so eviction can turn a live verdict into a refusal. It never goes the other
  way. `Eviction.VerdictByEvents` gives the exact condition after every run, told by the events and, at a failure, by
  whether the watch is retained; `Eviction.EvictionExactly` puts it in closed form for a cohort with only newcomers after
  it, and `Eviction.TheTwentyFourthNewcomerDecides` gives runs on both sides.
- `packages/service/src/index.ts:555-558` says an in-flight cohort is never the entry evicted, because setting refreshes it.
  A stamp is set once and never refreshed, so `Eviction.EvictionExactly` evicts cohorts still in flight.
- `packages/service/src/index.ts:1101-1106` says a settled cohort is released on three terminal paths. On the failure path the
  listener returns first when no watch is retained: `Eviction.FailureReleasesOnlyTheWatched`, and
  `Eviction.FailedCohortKeepsItsStamp` is a run.
- `packages/service/src/monitor.ts:1586-1593` says a canceled cohort awaits nothing, forever. Its record is one of 24:
  `PublicBit.TheTwentyFourthFateDecides` gives the runs in which its bit comes back, and `PublicBit.CanceledBitExactly` the
  exact condition.
- `packages/service/src/index.ts:1152-1160` says a cohort standing down is not watched. One advertised and agreed in the
  millisecond of the switch, but before it, is: `PublicBit.LateCohortCanAwait`; `PublicBit.LateWatchExactly` says when.
- `packages/service/src/acceptance-ledger.ts:37-46` and `packages/service/src/hono-adapter.ts:394-399` present their guards as
  keeping the hash of a byte-identical repost resolvable. That holds for requests one at a time, and for interleaved
  ones whose records differ. `AcceptanceRaces.RepostRace` is an interleaving of a replacement and an identical repost
  that breaks it, and `AcceptanceSchedules.ClaimsHoldExactly` says exactly which schedules do. The bound on the store
  holds for all of them: `AcceptanceSchedules.StoreIsBounded`.
- `packages/service/src/monitor.ts:1286-1290` lets a failed broadcast override the co-signed record. A failure to extract is
  emitted before the co-sign is folded, so there the co-signed record stands: `FateFold.ExtractFailureLeavesTheCoSign` is
  the input, and `FateFold.FoldsPartOnlyOnExtractFailure` proves it the only case.
- `packages/service/src/operator-auth.ts:104-111` describes a limit on the attempts of a client per window. The handler waits
  for the body between check and record, so the limit grows with the logins that overlap there:
  `OperatorAuth.GuessesAreBounded` is the bound, and `OperatorAuth.BoundIsReached` reaches it.

## Model

| member | source | states |
|---|---|---|
| `OrderedMap.RunLookup` | packages/service/src/index.ts:560-570 | after any history of sets and deletes a key is present, with its last value, exactly when its last operation was a set and at no moment since did `cap` other keys lie after it |
| `OrderedMap.SurvivesUntilCapOthers` | packages/service/src/genesis-capture.ts:43-62 | deletions included, a set key survives until `cap` distinct other keys are set after it |
| `OrderedMap.RunHoldsMostRecent` | packages/service/src/anchor-state.ts:97-109 | without deletions the bounded map holds exactly the `cap` most recently set keys |
| `OrderedMap.TrimShape` | packages/service/src/monitor.ts:962-972 | the eviction loop leaves the newest keys, in order, with their values, and nothing else |
| `OrderedMap.BoundedMap.Remember` | packages/service/src/index.ts:560-570 | the in-place delete-then-set and eviction loop refine the value model; at most one entry is evicted, and it is the oldest |
| `OrderedMap.BoundedMap.EvictPastCap` | packages/service/src/monitor.ts:1067-1079 | the while loop evicts from the oldest end until the size is within the cap and gives back exactly the oldest entries, in order |
| `OrderedMap.BoundedMap.Delete` | packages/service/src/index.ts:1114-1125 | deleting removes one key and keeps the order of the others |
| `KillSwitch.AdvertisedAfterSwitchNeverLive` | packages/service/src/index.ts:618-633 | over every run with a non-decreasing clock, a cohort never advertised before the engage time, one advertised in its very millisecond included, is refused at all three legs: the fixture is built for it, it is not watched and not published |
| `KillSwitch.LegsExactly` | packages/service/src/index.ts:618-633 | in every state each leg answers live exactly in its own modes, and with the switch off or a stamp from before the engage time |
| `KillSwitch.ModesKeepTheirHandsOff` | packages/service/src/index.ts:883-894 | over every run a hermetic service only ever builds the fixture, and one that is not broadcasting never watches and never publishes |
| `KillSwitch.VerdictOnlyFalls` | packages/service/src/index.ts:868-874 | no event turns the verdict of a cohort from false to true once the switch is engaged |
| `KillSwitch.VerdictOnlyFallsOverRuns` | packages/service/src/index.ts:868-874 | the same between any two points of any run |
| `KillSwitch.PublishedWasBuiltLive` | packages/service/src/index.ts:883-894 | a cohort allowed to publish had the live builder chosen at its earlier tx-data leg |
| `KillSwitch.StampIsAnAdvertise` | packages/service/src/index.ts:1078-1082 | every stamp in the table is the time of an actual advertise event of that cohort |
| `KillSwitch.EngageTimeIsFixed` | packages/service/src/runtime-settings.ts:977-987 | once engaged, the switch stays engaged and its time never moves |
| `KillSwitch.StampSurvives` | packages/service/src/index.ts:560-570 | a stamp stays, unmoved, until 24 other cohorts are advertised after it or its own cohort settles |
| `KillSwitch.StampedBeforeSwitchStaysLive` | packages/service/src/index.ts:1011-1030 | a cohort stamped before the engage time gets the live answer at all three legs wherever the switch falls, while fewer than 24 others were advertised since |
| `KillSwitch.ReleaseFirstRefusesEveryPublish` | packages/service/src/index.ts:1130-1132 | why registration order matters: had the release run first, an engaged switch would refuse every publish |
| `KillSwitch.VerdictExactly` | packages/service/src/index.ts:1155-1179 | after engagement the verdict is live if and only if the stamp predates the engage time and was never pushed out by 24 newer stamps |
| `KillSwitch.StampTableIsItsOps` | packages/service/src/index.ts:1078-1125 | the stamp table of any run is the bounded map of the operations its events perform |
| `KillSwitch.LiveWiring.constructor` | packages/service/src/index.ts:868-874 | a new service has empty tables and the switch off |
| `KillSwitch.LiveWiring.OnAdvertised` | packages/service/src/index.ts:1078-1082 | the first advertise stamps the cohort, a repeat changes nothing |
| `KillSwitch.LiveWiring.OnProvideTxData` | packages/service/src/index.ts:883-894 | the live builder exactly off the hermetic mode and with the switch off or the cohort stamped before it; after any run in which the cohort was never advertised before the switch, the fixture |
| `KillSwitch.LiveWiring.OnKeygenComplete` | packages/service/src/index.ts:1145-1226 | a watch starts once, exactly on a broadcasting service with the switch off or the cohort stamped before it |
| `KillSwitch.LiveWiring.ReleaseCohortTables` | packages/service/src/index.ts:1114-1125 | stamp and watch of one cohort go, all others stay |
| `KillSwitch.LiveWiring.OnSigningComplete` | packages/service/src/index.ts:1011-1132 | the publish gate reads the stamp before the release listener deletes it on the same event, and opens exactly on a broadcasting service with the switch off or the cohort stamped before it |
| `KillSwitch.LiveWiring.OnCohortFailed` | packages/service/src/index.ts:1231-1248 | a failed cohort is released only where it is watched |
| `KillSwitch.LiveWiring.DisableBroadcast` | packages/service/src/runtime-settings.ts:977-987 | the switch is one-way and takes its time once |
| `Eviction.TableIsWhatStands` | packages/service/src/index.ts:560-570 | after every run whatever, the stamp table holds exactly the stamps that stand, with the time of the advertise that took them and in that order: taken when none stood, not released since, and with fewer than 24 newer ones beside it ever since |
| `Eviction.EvictionExactly` | packages/service/src/index.ts:560-570 | in closed form, whoever else completes, fails or is canceled meanwhile: the stamp of a cohort advertised once, with only newcomers after it and not released, is held exactly if at no moment were 24 cohorts advertised after it and not yet released; those are the ones behind it |
| `Eviction.VerdictByEvents` | packages/service/src/index.ts:1155-1157 | after every run with the switch engaged the verdict is live exactly if the stamp stands and was taken before the engage time |
| `Eviction.TheTwentyFourthNewcomerDecides` | packages/service/src/index.ts:552-570 | a run for every number of newcomers: advertised before the switch, the cohort is live after it if and only if fewer than 24 came between |
| `Eviction.NewcomersDecide` | packages/service/src/index.ts:560-570 | where nothing settles, the count of newcomers decides stamp and verdict, whether they came before or after the switch |
| `Eviction.FailureReleasesOnlyTheWatched` | packages/service/src/index.ts:1231-1248 | in one step, a failure releases a stamp exactly if the service broadcasts and the cohort has a retained watch; otherwise nothing changes |
| `Eviction.FailedCohortKeepsItsStamp` | packages/service/src/index.ts:1231-1235 | the input: advertised, then failed, a cohort still holds its stamp |
| `Broadcast.SendWithRetry` | packages/service/src/broadcast.ts:199-237 | at least one send and at most `max(1, attempts)`, all of the same bytes; the last is the first that is accepted, is a known duplicate, uses the last attempt or is followed by an abort; success exactly if that one went through; the back-off is linear |
| `Broadcast.BroadcastAndConfirm` | packages/service/src/broadcast.ts:251-276 | decided by the last send: failure with nothing announced exactly if it was refused, else one announcement under the id it went through as; no poll after an abort or the deadline; confirmed only if the last poll said so, unconfirmed only after an abort or the deadline |
| `Broadcast.FrameGrammar` | packages/service/src/broadcast.ts:325-412 | for every interleaving and every moment of stopping, a cohort leaves a prefix of a failure or of an announcement and an anchor of the same transaction; confirmed only if a poll said so; sends bounded and identical; a failure after the first send spent every attempt |
| `Broadcast.RunKeepsCohortInv` | packages/service/src/broadcast.ts:325-412 | the invariant behind the grammar holds in every reachable state for every cohort |
| `Broadcast.StepFramesOthers` | packages/service/src/broadcast.ts:333-397 | a step of one cohort leaves the frames, the sends and the pending work of every other as they were |
| `Broadcast.StopSilences` | packages/service/src/broadcast.ts:376-392 | once `stop()` is among the acts, no frame and no send follows |
| `Broadcast.ForeignIsHeard` | packages/service/src/monitor.ts:1249-1338 | whatever else happens to any cohort reaches the folds once and in order, whether or not the service stopped |
| `Broadcast.StoppedStepIsSilent` | packages/service/src/broadcast.ts:383-392 | each single step after `stop()` emits and sends nothing |
| `Broadcast.GatedOffStaysSilent` | packages/service/src/broadcast.ts:340-342 | a cohort the gate refused is never sent, and its co-sign is all that is ever recorded of it |
| `Broadcast.ExtractFailureKeepsInv` | packages/service/src/broadcast.ts:344-352 | a transaction that does not extract leaves exactly one failure frame followed by the co-sign, no send, and settled work |
| `Confirmation.SignedIsSent` | packages/service/src/broadcast.ts:333-378 | a cohort let through is sent at once as it was signed |
| `Confirmation.AcceptedSendPolls` | packages/service/src/broadcast.ts:199-276 | a send the node took or had taken is announced under that id; with time left a poll is under way, and with none the anchor closes unconfirmed |
| `Confirmation.RefusedSendRetries` | packages/service/src/broadcast.ts:221-237 | a refused send is retried after a sleep while fewer sends were made than allowed, and then is a failure |
| `Confirmation.SleptIsSentAgain` | packages/service/src/broadcast.ts:208-213 | the sleep over, the same bytes go out again |
| `Confirmation.PollDecides` | packages/service/src/broadcast.ts:267-273 | a poll that finds it mined closes with a confirmed anchor of the announced id, and any other is slept on |
| `Confirmation.StoppedWorkEnds` | packages/service/src/broadcast.ts:221-232 | on a stopped service whatever settles for a cohort ends its work, but for a poll that is slept on first |
| `Confirmation.ConfirmedExactly` | packages/service/src/broadcast.ts:267-386 | for every run: a cohort's frames end in a confirmed anchor of the announced id if and only if some poll of it settled as mined on a running service |
| `Confirmation.UnconfirmedOnlyOutOfTime` | packages/service/src/broadcast.ts:266-275 | for every run: an unconfirmed anchor appears only once the clock has reached the time its send was accepted under that id plus the whole confirmation window |
| `Confirmation.SawExactly` | packages/service/src/broadcast.ts:267-273 | the flag that stands in the frame grammar for a mined poll is up exactly once a poll of the cohort has settled as mined, stopped or not |
| `Confirmation.MinedReadsConfirmed` | packages/service/src/anchor-state.ts:111-125 | from a mined poll on, whatever happens: the retained public read says confirmed under the announced id, and the retained undisturbed chip is one of the anchored two |
| `Coordinator.EverySendWasBuiltLive` | packages/service/src/index.ts:883-1030 | composing switch and protocol: every transaction ever handed to the network was built by the live builder, whenever the switch engages and whatever is evicted |
| `Coordinator.EveryJobIsLive` | packages/service/src/index.ts:1020-1029 | every cohort the protocol takes up carries a live-built transaction |
| `Coordinator.CompletionIsSent` | packages/service/src/index.ts:1011-1030 | the other direction, after every run: a first completion on a running service is folded as it was, and its transaction is sent at once exactly if it extracts and the service broadcasts with the switch off or the cohort stamped before it |
| `Coordinator.CompletionIsGated` | packages/service/src/index.ts:1130-1132 | each completion is gated by the tables as they stood before it |
| `AnchorState.ReadIsLastFrame` | packages/service/src/anchor-state.ts:97-125 | the table gives the last frame over the whole history exactly for the 24 cohorts most recently framed, and nothing for others |
| `AnchorState.UnframedReadsNothing` | packages/service/src/anchor-state.ts:128-133 | a cohort that never had a frame reads as unknown |
| `AnchorState.AnchorFold.OnBeaconBroadcast` | packages/service/src/anchor-state.ts:112-114 | the in-place listener is the fold of an announcement |
| `AnchorState.AnchorFold.OnBeaconAnchored` | packages/service/src/anchor-state.ts:115-119 | an unconfirmed anchor stays `broadcast` |
| `AnchorState.AnchorFold.OnBeaconBroadcastFailed` | packages/service/src/anchor-state.ts:120-124 | a failure keeps no id and only the generic reason |
| `AnchorState.AnchorFold.Read` | packages/service/src/anchor-state.ts:128-153 | the public read over the whole frame history: state, id and reason are those of the cohort's last frame while fewer than 24 others were framed since, evicted and never-seen cohorts read alike, and the link is there exactly when the id and the network give one |
| `FundingWatch.SelectionIsDeepest` | packages/service/src/funding-watch.ts:74-100 | the selected output is a deepest confirmed one above dust, and there is none only if no output qualifies |
| `FundingWatch.ClassifiedExactly` | packages/service/src/funding-watch.ts:76-100 | funded exactly if the earliest listed of the deepest confirmed outputs above dust is worth the suggested minimum, a dead end exactly if it is worth less, awaiting confirmation exactly if nothing is spendable and something is unconfirmed, and waiting otherwise; the output selected is that one |
| `FundingWatch.SelectionIsThePick` | packages/service/src/funding-watch.ts:80-96 | the selection is the earliest listed of the deepest confirmed outputs above dust |
| `FundingWatch.VerdictIsFinalUnderTopUps` | packages/service/src/funding-watch.ts:74-100 | mixing in any unconfirmed, dust or shallower outputs, anywhere, changes neither a dead end nor a funded verdict nor the output |
| `FundingWatch.ComputeFundingDeadline` | packages/service/src/funding-watch.ts:141-164 | the wait ends within the window and the slack ahead of the cohort timer, no earlier than the earliest bound; truncation is disclosed exactly when the timer binds, to the half minute |
| `FundingWatch.ReportsAreHonest` | packages/service/src/funding-watch.ts:257-301 | each report carries the classification of the last good read; funded is reported at most once and last; reporting ends exactly at the first stop or funded |
| `FundingWatch.FundedIsLast` | packages/service/src/funding-watch.ts:284-294 | nothing is reported after funded |
| `FundingWatch.FundingWatchHandle.OnRead` | packages/service/src/funding-watch.ts:267-294 | one turn of the loop, a failed read freezing the state |
| `FundingWatch.FundingWatchHandle.Stop` | packages/service/src/funding-watch.ts:296-300 | stopping only aborts |
| `FateFold.ColumnsFollowTheTag` | packages/service/src/monitor.ts:1249-1338 | in every reachable state a record is in the fallback column if and only if its tag is set, and both tables are within their caps |
| `FateFold.OnlyOwnRecordChanges` | packages/service/src/monitor.ts:1067-1079 | a step replaces at most its own cohort's record; others stay as filed or are evicted |
| `FateFold.NoBroadcasterNoAnchors` | packages/service/src/monitor.ts:1291-1339 | without broadcaster frames no record ever carries an anchored chip |
| `FateFold.RecordIsLastFate` | packages/service/src/monitor.ts:1249-1338 | whatever the bounded table holds for a cohort is the last fate of its whole unbounded history |
| `FateFold.RecordSurvives` | packages/service/src/monitor.ts:1067-1079 | a filed record stays until 24 other cohorts end or its own cohort gets another fate |
| `FateFold.ChipHasItsObservation` | packages/service/src/monitor.ts:1249-1338 | whatever chip a held record carries is that of the last observation of its cohort that gives it a fate |
| `FateRetention.RecordsAreWhatStands` | packages/service/src/monitor.ts:1067-1079 | after every log whatever, the table of ended cohorts holds exactly the records that stand, told by the observations alone and in the order they were filed: the last filing, not dismissed since, with fewer than 24 newer records beside it ever since |
| `FateRetention.CanceledExactly` | packages/service/src/monitor.ts:1515-1536 | a cohort reads as canceled exactly while a cancel is the record of it that stands |
| `FateFold.PromotionKeepsTheColumn` | packages/service/src/monitor.ts:1312-1338 | a confirmed anchor promotes to `fallback` if and only if the co-sign went over the script path or a fallback of the cohort was seen since its live entry was made, with fewer than 24 other fates in between |
| `FateFold.TagIsSeen` | packages/service/src/monitor.ts:1229-1237 | a live entry is tagged exactly if its cohort was seen to fall back since the entry was made |
| `FateFold.CoSignedColumn` | packages/service/src/monitor.ts:1249-1271 | a co-sign is filed in the fallback column exactly for the script path or such a fallback |
| `FateFold.AnchorHoldsLastFrame` | packages/service/src/anchor-state.ts:111-125 | the anchor table holds the last frame of the cohort's own trace |
| `FateFold.FoldsAgreeOnConfirmed` | packages/service/src/monitor.ts:1249-1338 | in every reachable state of the protocol, for a cohort both folds retain and nothing else ended, the public state is confirmed if and only if the operator chip is anchored or fallback |
| `FateFold.ExtractFailureLeavesTheCoSign` | packages/service/src/broadcast.ts:344-352 | the input on which a failed broadcast does not override the record: after a transaction that does not extract the public read is failed and the record is the co-sign |
| `FateFold.FoldsPartOnlyOnExtractFailure` | packages/service/src/monitor.ts:1286-1311 | exactly when it does: in every reachable state, for an undisturbed cohort both folds retain, the read says failed and the chip does not if and only if its transaction does not extract; otherwise they say failed together |
| `FateFold.LaterEndPartsTheFolds` | packages/service/src/monitor.ts:1275-1284 | the proviso is needed: a later failure or cancel of a confirmed cohort makes them differ |
| `LiveEntries.EntryIsHeldExactly` | packages/service/src/monitor.ts:962-972 | after every log: a cohort seen live, and not seen again or dismissed since, has an entry exactly until 24 others have one newer than its own |
| `LiveEntries.DismissedLeavesNothing` | packages/service/src/monitor.ts:1555-1578 | a dismissed cohort has neither a record nor an entry |
| `LiveEntries.MarkIsSeen` | packages/service/src/monitor.ts:1249-1260 | an entry says its cohort is past signing exactly if its co-sign was seen since the entry was made |
| `CohortMonitor.FundedIsSticky` | packages/service/src/monitor.ts:1508-1512 | one note never takes a retained view out of funded |
| `CohortMonitor.NotedExactly` | packages/service/src/monitor.ts:1490-1513 | what is noted is what is then held, as the newest, unless it would take a held funded view out of funded, and then nothing changes |
| `CohortMonitor.Monitor.constructor` | packages/service/src/monitor.ts:962-972 | a new monitor holds nothing |
| `CohortMonitor.Monitor.OnActivity` | packages/service/src/monitor.ts:1220-1223 | an activity event refreshes the live entry and no fate |
| `CohortMonitor.Monitor.OnFallbackStarted` | packages/service/src/monitor.ts:1229-1237 | the fallback tag is set on the live entry |
| `CohortMonitor.Monitor.OnSigningComplete` | packages/service/src/monitor.ts:1249-1271 | the co-sign is filed under the tag of its path, the live entry marked without being refreshed |
| `CohortMonitor.Monitor.OnCohortFailed` | packages/service/src/monitor.ts:1275-1284 | a runner failure files a failed record without a tag |
| `CohortMonitor.Monitor.OnBeaconBroadcastFailed` | packages/service/src/monitor.ts:1302-1311 | a broadcast failure overrides the co-signed record |
| `CohortMonitor.Monitor.OnBeaconAnchored` | packages/service/src/monitor.ts:1312-1338 | only a confirmed anchor promotes, reading the stored tag |
| `CohortMonitor.Monitor.NoteCanceled` | packages/service/src/monitor.ts:1515-1536 | canceling is idempotent and files a fate of its own |
| `CohortMonitor.Monitor.DismissEnded` | packages/service/src/monitor.ts:1555-1578 | dismissal happens exactly for an ended record of a cohort not live, and clears all three tables |
| `CohortMonitor.Monitor.NoteFunding` | packages/service/src/monitor.ts:1490-1513 | only a broadcasting service stores views, funded ones never regressing |
| `CohortMonitor.Monitor.PublicFunding` | packages/service/src/monitor.ts:1580-1610 | the anonymous bit is true exactly for a retained, not lapsed, still unfunded view of a cohort not canceled |
| `CohortMonitor.Monitor.Summary` | packages/service/src/monitor.ts:1612-1664 | rows have unique ids and number open plus in flight plus ended not live; each row carries the right chip |
| `CohortMonitor.Monitor.ServiceMetrics` | packages/service/src/monitor.ts:1666-1715 | the four counters are the sizes of the four sets they name |
| `CohortMonitor.LiveRows` | packages/service/src/monitor.ts:1618-1645 | one row per filling or co-signing cohort, with the funding chip exactly when its view is not funded |
| `CohortMonitor.AppendEndedRows` | packages/service/src/monitor.ts:1649-1662 | live rows are kept as they are and every record not live gets one row |
| `CohortMonitor.CountLive` | packages/service/src/monitor.ts:1671-1678 | each live cohort is counted once by its phase |
| `CohortMonitor.CountEnded` | packages/service/src/monitor.ts:1697-1713 | anchored and failed records are counted, the other fates in neither column |
| `CohortMonitor.NoBroadcasterCountsNoAnchors` | packages/service/src/monitor.ts:1683-1687 | with no broadcaster the anchored counter is always zero |
| `FundingSurface.FailedCohortAwaitsNothing` | packages/service/src/index.ts:1231-1248 | with room for every watch, the public bit of a watched cohort is false from the handling of its failure to the end of the run |
| `FundingSurface.FundedStaysFunded` | packages/service/src/monitor.ts:1498-1512 | over any run, failures and evictions included, a view retained between two moments and funded at the first is funded at the second |
| `FundingSurface.FundedEndsTheReports` | packages/service/src/index.ts:1199-1224 | a watch started once reports nothing after funded |
| `FundingSurface.DismissedIsForgotten` | packages/service/src/monitor.ts:1555-1578 | once its record is dismissed a cohort has no view until its watch reports or it fails again |
| `FundingSurface.BitIsTheLastGoodRead` | packages/service/src/index.ts:1199-1224 | where the reports are those of a watch over some reads, the bit of a held view says awaiting exactly if the last good read classified the address as waiting or awaiting confirmation |
| `FundingSurface.FailureLeavesTheBitExactly` | packages/service/src/index.ts:1231-1248 | in any state a failure leaves the bit set exactly if the handler finds no retained handle or no last view to file as lapsed |
| `FundingSurface.UnheldWatchRunsOn` | packages/service/src/index.ts:1114-1125 | a cohort that settles is watched on exactly if its handle had been evicted, and what that watch reports is still noted |
| `FundingSurface.FailedCohortStillAwaits` | packages/service/src/index.ts:1225-1234 | without room: the first of 25 watches reports last, fails, and still reads as awaiting |
| `FundingSurface.LapseTellsTheLastReport` | packages/service/src/index.ts:1236-1244 | after any run, whatever other cohorts did: a cohort that fails before it was ever funded is filed as a blind lapse exactly if its last report was a failed observation, where the handler still finds its handle and last view, and otherwise nothing is filed; with room for every watch and each cohort watched once it finds both |
| `FundingSurface.RunKeepsInv` | packages/service/src/index.ts:1145-1226 | with room for every watch and each cohort watched once, running watches are retained ones, and every view that awaits funding is the one the failure handler will find |
| `PublicBit.RunStaysJoined` | packages/service/src/index.ts:1145-1248 | over every run of the whole service the kill switch and the funding surface agree on the retained watch handles and their order, and there are none off the broadcasting path |
| `PublicBit.TablesRunOnEvents` | packages/service/src/index.ts:1011-1132 | the kill-switch part of the service is the kill-switch model run on the events it sees |
| `PublicBit.SurfaceRunsOnFundings` | packages/service/src/index.ts:1145-1248 | its funding part is the funding model run on the starts, reports, failures, settlements and dismissals that reach it |
| `PublicBit.FoldRunsOnObservations` | packages/service/src/monitor.ts:1249-1338 | its monitor part is the fold run on the observations that reach it |
| `PublicBit.CoSignIsFiled` | packages/service/src/monitor.ts:1249-1271 | after every run of the service a co-sign is recorded in the fallback column exactly for the script path or a fallback still recalled |
| `PublicBit.FallbackIsRecalled` | packages/service/src/monitor.ts:1229-1237 | a fallback is recalled from the moment it is seen |
| `PublicBit.FailureIsFiled` | packages/service/src/monitor.ts:1275-1311 | a cohort that fails, on the runner or on the network, is recorded as failed |
| `PublicBit.AnchorIsFiled` | packages/service/src/monitor.ts:1312-1338 | one confirmed on the chain is recorded as anchored, in one of the two columns |
| `PublicBit.SignOfLife` | packages/service/src/monitor.ts:1220-1223 | a cohort that keys, or shows any sign of life, has the newest live entry |
| `PublicBit.DismissalClears` | packages/service/src/monitor.ts:1555-1578 | dismissing an ended cohort clears its record, entry and view; dismissing any other changes nothing |
| `PublicBit.NeverWatchedNeverAwaits` | packages/service/src/index.ts:1152-1179 | over every run, a cohort no keygen-complete of which found the rule live has no handle, no watch and no view, and its public bit is never set |
| `PublicBit.LateCohortNeverAwaits` | packages/service/src/index.ts:1152-1179 | so with a cohort not advertised before the engage time whose keys are agreed only after the switch: at no moment of the run is a view of it noted or its bit set |
| `PublicBit.LateWatchExactly` | packages/service/src/index.ts:1152-1179 | a watch of a cohort not advertised before the engage time starts exactly at a keygen-complete that comes before the switch |
| `PublicBit.LateCohortCanAwait` | packages/service/src/index.ts:1152-1179 | the input that needs the proviso: advertised, agreed and watched in the millisecond of the switch, a cohort is refused and yet its bit is set |
| `PublicBit.BitExactly` | packages/service/src/monitor.ts:1580-1610 | after every run of the service the bit is set exactly while a view that awaits is retained and no cancel stands as the fate, told by the observations |
| `PublicBit.CanceledBitExactly` | packages/service/src/monitor.ts:1586-1595 | a canceled cohort not watched again is awaiting at the end exactly if its view awaited at the cancel and is retained, and the cancel no longer stands |
| `PublicBit.TheTwentyFourthFateDecides` | packages/service/src/monitor.ts:1586-1595 | a run for every number of later fates: canceled while it waits, the cohort reads as awaiting again if and only if at least 24 others have failed since |
| `Acceptance.DedupKeyIsInjective` | packages/service/src/acceptance-ledger.ts:25-27 | two dedup keys are equal exactly when participant and cohort are |
| `Acceptance.AcceptanceLedger.Remember` | packages/service/src/acceptance-ledger.ts:80-107 | the in-place update; the answer is the different hash replaced or the oldest displaced, never more than one |
| `Acceptance.AcceptanceLedger.Retained` | packages/service/src/acceptance-ledger.ts:109-111 | the retained hashes, newest last |
| `Acceptance.JoinedKeysMeanSameKeys` | packages/service/src/hono-adapter.ts:338-341 | comparing joined sorted keys, with the named ones present, is equality of the key sets |
| `Acceptance.RecordAcceptedExactly` | packages/service/src/hono-adapter.ts:349-384 | the checks on the record's fields accept exactly a filled record of this service, its current terms hash, a well-formed cohort id and date, and a verifying signature |
| `Acceptance.FieldsCheckedExactly` | packages/service/src/hono-adapter.ts:335-346 | with no field empty, the joined-name comparison and the value loop pass exactly objects with the frozen field set and values within bounds |
| `Acceptance.AcceptedExactly` | packages/service/src/hono-adapter.ts:321-384 | a body is accepted exactly if its object has the seven named keys, each a text of 1 to 512 characters, and the text under each name meets that field's condition: this service and its current terms, a cohort id of 1 to 64 letters, digits and hyphens, a date, and a participant whose key verifies the signature; the record handed on has each field from under its own name |
| `Acceptance.SameKeysSortAlike` | packages/service/src/hono-adapter.ts:338-339 | the sorted key list does not depend on the order the keys were submitted in |
| `Acceptance.AdmitAgrees` | packages/service/src/hono-adapter.ts:388-413 | one request keeps store and ledger in agreement and its own hash present |
| `Acceptance.RunAgrees` | packages/service/src/hono-adapter.ts:388-413 | after any sequence of requests, reposts and replacements included, the store's keys are the retained hashes, at most one per participant and cohort |
| `Acceptance.SurvivorsAreMostRecent` | packages/service/src/acceptance-ledger.ts:80-107 | the survivors are exactly the 200 most recently accepted pairs |
| `Acceptance.SurvivorsByPair` | packages/service/src/acceptance-ledger.ts:80-107 | told by the pairs of participant and cohort: the last record accepted for a pair is stored exactly if fewer than 200 other pairs were accepted since, and no other record of the pair is |
| `Acceptance.AcceptanceRoute.RecordTermsAcceptance` | packages/service/src/hono-adapter.ts:297-414 | accepted exactly under those conditions; a refused request changes nothing, an accepted one is stored under its hash and admitted, and every stored record came in by such a body |
| `Acceptance.AcceptanceRoute.StoreThenReconcile` | packages/service/src/hono-adapter.ts:388-413 | put, remember and the deletion loop amount to one admission |
| `AcceptanceRaces.RunIsAccounted` | packages/service/src/hono-adapter.ts:388-412 | for requests interleaved at their awaits, each hash submitted once, every stored hash is retained, put and not yet remembered, or dropped and not yet deleted, by exactly one holder |
| `AcceptanceRaces.StepKeepsClaimsExactly` | packages/service/src/hono-adapter.ts:403-405 | one step keeps every claimed hash stored if and only if it does not delete a hash claimed again since it was dropped; the runs are in AcceptanceSchedules |
| `AcceptanceRaces.RepostRace` | packages/service/src/hono-adapter.ts:389-405 | a concrete interleaving, waiting only at the puts, in which an identical repost ends with a retained hash the store has lost |
| `AcceptanceSchedules.ClaimsHoldExactly` | packages/service/src/hono-adapter.ts:388-412 | for every schedule, whatever is submitted: every hash answered for is stored at every moment if and only if no deletion removes a hash put and not displaced since, told by the order of puts, remembers and deletes |
| `AcceptanceSchedules.LedgerStaysValid` | packages/service/src/acceptance-ledger.ts:80-107 | the ledger is well formed and within 200 after every run, with no condition on what is submitted |
| `AcceptanceSchedules.LedgerIsWhatStands` | packages/service/src/acceptance-ledger.ts:80-107 | the ledger holds exactly the last remember of each key with fewer than 200 other keys remembered since |
| `AcceptanceSchedules.DeleteRemoves` | packages/service/src/hono-adapter.ts:400-412 | what an enabled deletion removes is what its request's remember displaced |
| `AcceptanceSchedules.RaceHasABadDelete` | packages/service/src/hono-adapter.ts:389-405 | the repost race is a schedule with such a deletion |
| `AcceptanceSchedules.SubmittedOnceDeletesWell` | packages/service/src/hono-adapter.ts:388-412 | a schedule that submits every hash once has no such deletion |
| `AcceptanceSchedules.StoredIsCovered` | packages/service/src/hono-adapter.ts:388-412 | for every schedule, reposts included, a stored hash is retained, held by a request in flight, or one whose deletion failed |
| `AcceptanceSchedules.StoreIsBounded` | packages/service/src/acceptance-ledger.ts:80-107 | for every schedule, reposts included, the store never exceeds 200, plus one per request in flight, plus failed deletions |
| `AcceptanceSchedules.QuiescentStoreIsTheLedger` | packages/service/src/hono-adapter.ts:388-412 | for every schedule, with nothing in flight and no failed deletion: the store holds nothing the ledger does not retain, and they coincide if and only if no retained hash was deleted after its last put, hence wherever no deletion takes a claimed hash or every hash is submitted once |
| `Roster.BytesEqual` | packages/service/src/roster.ts:5-14 | the accumulator loop returns true exactly on equal byte sequences |
| `Roster.DecideRosterOptIn` | packages/service/src/roster.ts:45-63 | binding, then membership, then uniqueness, each refusal exactly characterised |
| `Roster.RosterGate.constructor` | packages/service/src/index.ts:662-662 | no key is seated at the start |
| `Roster.RosterGate.OnOptInReceived` | packages/service/src/index.ts:925-943 | an opt-in is accepted exactly when it seats its key; other cohorts and a refused cohort's table are untouched |
| `Roster.SeatedAreDistinctMembers` | packages/service/src/index.ts:925-943 | over any opt-in sequence a cohort's seated keys are distinct roster members |
| `Roster.FullMeansThePermutation` | packages/service/src/beacon-address.ts:14-23 | a cohort that seats as many keys as the roster has seated a permutation of it |
| `Roster.RepeatedKeyNeverFills` | packages/service/src/roster.ts:37-40 | a roster that repeats a key can never fill a cohort of its size |
| `Roster.SeatedAddressIsThePreDerived` | packages/service/src/beacon-address.ts:29-61 | over any run the address of the full cohort, computed from terms each named equal to the configuration's, equals the pre-derived one |
| `Roster.DeriveCohortBeaconAddress` | packages/service/src/beacon-address.ts:29-61 | size, 33-byte keys and recovery key are checked in that order; the address is computed from terms whose six fields are each the configuration's and from the ordered permutation of the keys; the caller's array is unreordered |
| `Roster.AggregationCohort.SetCohortKeys` | packages/service/src/beacon-address.ts:56-59 | the setter keeps the array it is given and orders it in place |
| `Sorting.SortedIsUnique` | packages/service/src/beacon-address.ts:56-59 | two sorted lists of the same keys are equal |
| `Sorting.SortForgetsOrderOnly` | packages/service/src/beacon-address.ts:9-12 | sorted key lists are equal if and only if the keys are a permutation |
| `Sorting.OrderedByFirstDifference` | packages/service/src/beacon-address.ts:9-12 | one key comes before another exactly if it is a prefix of it or smaller at the first byte that differs |
| `Sorting.SortedIsInOrder` | packages/service/src/beacon-address.ts:56-59 | a sorted list is in that order throughout |
| `Encoding.HexIsInjective` | packages/service/src/roster.ts:59-61 | two byte strings have the same hex exactly when they are equal |
| `Encoding.HexDigitsInOrder` | packages/service/src/roster.ts:59-61 | the sixteen digits are `0-9a-f` in their order |
| `Encoding.HexOfEachByte` | packages/service/src/roster.ts:59-61 | each byte is spelt by two digits, the higher half first |
| `Encoding.Base64RoundTrip` | packages/service/src/persist.ts:115-115 | decoding the base64url form gives the bytes back |
| `Encoding.SymbolsInOrder` | packages/service/src/persist.ts:115-115 | the symbols are the four ranges of the base64url alphabet, in order |
| `Encoding.Base64Groups` | packages/service/src/persist.ts:115-115 | three bytes are spelt by four symbols, the highest bits first, and a shorter end by as few as hold it, the spare bits zero |
| `Encoding.Base64IsCanonical` | packages/service/src/persist.ts:115-115 | only the canonical text of some bytes decodes to them |
| `Encoding.ReencodeIsFaithful` | packages/service/src/persist.ts:115-115 | re-encoding an id gives the hex of exactly the bytes the id stands for |
| `Store.HexIsAKey` | packages/service/src/store.ts:56-62 | the hex of any actual bytes is already a store key in normal form |
| `Store.KeysAreTheirNibbles` | packages/service/src/store.ts:56-62 | the normal form of a key is the digits of the nibbles it spells, in either case |
| `Store.KeyExactly` | packages/service/src/store.ts:56-62 | a text is a key exactly if it spells at least one nibble, and two name the same slot exactly if they spell the same |
| `Store.ArtifactStore.Put` | packages/service/src/store.ts:113-115 | a put writes one slot or, on a malformed key, nothing |
| `Store.ArtifactStore.Get` | packages/service/src/store.ts:117-119 | a read fails exactly on a malformed key |
| `Store.ArtifactStore.Entries` | packages/service/src/store.ts:125-127 | every value of the namespace and no other, in no promised order |
| `Persist.PersistCohortArtifacts` | packages/service/src/persist.ts:89-122 | the store after the three loops is the sequence of writes the cohort calls for, cut at the first undecodable id; success exactly if all ids decode; proofs plus skipped equals the proof count, skipped the decliners |
| `Persist.PersistUpdates` | packages/service/src/persist.ts:96-99 | every update is written under the hex of its digest |
| `Persist.PersistProofs` | packages/service/src/persist.ts:110-118 | every proof with an id is written under the hex of that id, the rest skipped and counted |
| `Persist.PersistIsIdempotent` | packages/service/src/persist.ts:86-87 | persisting a cohort twice is persisting it once |
| `Persist.UpdateIsFound` | packages/service/src/persist.ts:96-99 | the base64url hash of a persisted update, re-encoded, finds a body of exactly that digest |
| `Persist.UpdateIsFoundItself` | packages/service/src/persist.ts:96-99 | over any number of cohorts it is that very update, where no update persisted with it or after it has the same digest and another body |
| `Persist.UpdateIsFoundForGood` | packages/service/src/persist.ts:64-87 | whatever cohorts are persisted before and after, the update stays available |
| `Persist.AnnouncementIsFoundForGood` | packages/service/src/persist.ts:102-106 | whatever cohorts are persisted before and after, the announcement hash stays answered by an announcement of that digest |
| `Persist.AnnouncementIsFoundItself` | packages/service/src/persist.ts:102-106 | and by that very announcement, where none persisted with it or after it has the same digest and other contents |
| `Persist.ProofIsFoundForGood` | packages/service/src/persist.ts:110-118 | a member's proof stays in the store while no later cohort carries another proof under its update id |
| `Persist.CasMemberIsServed` | packages/service/src/persist.ts:102-106 | the announcement answers to its on-chain hash and leads to the member's update |
| `Persist.ProofIsKeptExactly` | packages/service/src/persist.ts:110-118 | a member's proof is in the store afterwards exactly when it is the last one with its update id |
| `Persist.WritesByKind` | packages/service/src/persist.ts:95-119 | each group of writes is alone in its namespace |
| `Resolve.SelectSmtProof` | packages/service/src/resolve.ts:141-177 | a proof is returned exactly if some stored one is at the root and verifies for the DID, whatever malformed or foreign values the store holds |
| `Resolve.HashesAreThirtyTwoBytes` | packages/service/src/resolve.ts:167-168 | the texts read as hashes are exactly the base64url texts of 32 bytes, each as those bytes |
| `Resolve.HasUnconfirmedSignal` | packages/service/src/resolve.ts:106-115 | true exactly if some signal has no finite block time |
| `Resolve.SatisfyNeed` | packages/service/src/resolve.ts:180-250 | a need is provided once with a right answer, or nothing is provided and the error names why there is none, or the resolver refused |
| `Resolve.SatisfyRound` | packages/service/src/resolve.ts:278-280 | the needs of a round are provided in request order up to the first that cannot be met |
| `Resolve.DriveResolution` | packages/service/src/resolve.ts:261-300 | for any resolver: never out of turn, only right answers, no non-finite block time ever provided, at most `maxIterations + 1` calls to `resolve()`, a result exactly if the resolver finished, and otherwise exactly why |
| `Resolve.ConvergingIsNeverStopped` | packages/service/src/resolve.ts:261-284 | nothing stops a drive of a resolver that, in every conversation a drive can have, refuses no right answer, never throws, is content in time, and is owed only what is answerable then; what it does with wrong data is left to it |
| `Resolve.PersistedUpdateIsServed` | packages/service/src/resolve.ts:216-226 | after persisting, the update need is answerable and only rightly |
| `Resolve.PersistedAnnouncementIsServed` | packages/service/src/resolve.ts:205-215 | after persisting, the announcement need has exactly the cohort's announcement as answer |
| `Resolve.PersistedProofIsServed` | packages/service/src/resolve.ts:227-237 | after persisting, the member's proof need is answerable among whatever else is stored |
| `MemberResolution.CoveredIsServed` | packages/service/src/resolve.ts:180-250 | over any number of cohorts: a need for a persisted announcement, update, proof of a fresh id or genesis is answerable, and every answer is the artifact the need names |
| `MemberResolution.ProvidedWasAsked` | packages/service/src/resolve.ts:278-280 | in every conversation a drive can have, whatever is provided was asked for in such a conversation |
| `MemberResolution.ResolveMember` | packages/service/src/resolve.ts:261-300 | a resolver that converges so and asks, in such conversations, only for what the persisted cohorts left, gets its result from the drive, and everything it was given on the way is what it named |
| `CasResolution.ResolveUntrusted` | packages/service/src/store.ts:64-70 | over any store whatever, a resolver that checks each artifact against the hash it asked by returns only an update that an announcement with the hash asked for names for this member |
| `CasResolution.StaysOnTrack` | packages/service/src/resolve.ts:304-309 | in every conversation with it, whatever is provided and in whatever order, either it has refused, thrown or been spoken to out of turn, or all it holds is genuine |
| `CasResolution.CasMemberConverges` | packages/service/src/resolve.ts:205-226 | over the store its cohort was persisted in it converges in two rounds, though it refuses every wrong artifact |
| `CasResolution.CasMemberAsksWithin` | packages/service/src/resolve.ts:205-226 | and asks only for what was persisted, though its second need is named by its first answer |
| `CasResolution.ResolveCasMember` | packages/service/src/resolve.ts:261-300 | so the drive gives the member of a CAS cohort exactly its own update |
| `Genesis.GenesisStagingCache.Open` | packages/service/src/genesis-capture.ts:31-36 | a cap below one is refused |
| `Genesis.GenesisStagingCache.Remember` | packages/service/src/genesis-capture.ts:43-51 | staging appends to the history the table abbreviates |
| `Genesis.GenesisStagingCache.Take` | packages/service/src/genesis-capture.ts:56-62 | the last staged document, unless taken since or pushed out; taking removes it |
| `Genesis.StagedUntilCapOthers` | packages/service/src/genesis-capture.ts:45-50 | fewer than `cap` distinct other senders cannot push a document out |
| `Genesis.PersistMemberGenesis` | packages/service/src/genesis-capture.ts:82-104 | a document is written exactly if the DID is external and commits to its digest |
| `Genesis.AcceptedGenesisIsServed` | packages/service/src/resolve.ts:238-248 | an accepted member's genesis need has exactly that document as answer, and the store stays content-addressed |
| `Genesis.CohortsLeaveGeneses` | packages/service/src/persist.ts:89-122 | persisting a cohort touches no genesis |
| `OperatorAuth.LoginThrottle.Check` | packages/service/src/operator-auth.ts:126-136 | admission and lazy eviction of an expired record |
| `OperatorAuth.LoginThrottle.Fail` | packages/service/src/operator-auth.ts:137-145 | a failure opens a window or counts in the live one |
| `OperatorAuth.LoginThrottle.Reset` | packages/service/src/operator-auth.ts:146-148 | a success clears the client |
| `OperatorAuth.LoginHandler.OnRequest` | packages/service/src/operator-auth.ts:230-235 | up to the wait for the body: refused at once, or admitted and waiting |
| `OperatorAuth.LoginHandler.OnBody` | packages/service/src/operator-auth.ts:236-259 | from the body on: the reply, and only now the throttle told |
| `OperatorAuth.GuessesAreBounded` | packages/service/src/operator-auth.ts:122-150 | with at most m logins of a client between check and body at a time, no stretch as long as a window sees more than `2 * (max(1, maxAttempts) + m - 1) - 1` of its wrong passwords, whatever the spacing and the other clients, while it does not sign in |
| `OperatorAuth.BoundIsReached` | packages/service/src/operator-auth.ts:228-260 | for every limit, positive window and overlap some history reaches that bound |
| `OperatorAuth.OverlapExceedsTheSequentialBound` | packages/service/src/operator-auth.ts:232-244 | two overlapping logins already pass the bound that holds for logins one after the other |
| `OperatorAuth.NoBoundWithoutOne` | packages/service/src/operator-auth.ts:232-244 | with no bound on the overlap there is none on the guesses in one stretch, whatever the limit |
| `OperatorAuth.FreshClientHasItsLimit` | packages/service/src/operator-auth.ts:122-150 | a client without a record, guessing one login after the other, is admitted for each of its first `max(1, maxAttempts)` |
| `OperatorAuth.SignInRestoresTheLimit` | packages/service/src/operator-auth.ts:246-250 | after a sign-in the client has its whole limit again, whatever it guessed before |
| `OperatorAuth.SessionStore.Create` | packages/service/src/operator-auth.ts:82-86 | a session is recorded with its expiry |
| `OperatorAuth.SessionStore.IsValid` | packages/service/src/operator-auth.ts:87-97 | lazy eviction is unobservable: valid exactly if created, not destroyed since, and not past creation plus ttl |
| `OperatorAuth.SessionStore.Destroy` | packages/service/src/operator-auth.ts:98-100 | a destroyed session is gone |
| `AdvertSlot.Transport.PublishRepeating` | packages/service/src/advert-republish.ts:6-16 | every publish overwrites the one slot under a new id |
| `AdvertSlot.Transport.Stop` | packages/service/src/advert-republish.ts:12-14 | a stop closure clears the slot only while its own advert is in it |
| `AdvertSlot.AdvertRepublisher.Republish` | packages/service/src/advert-republish.ts:75-102 | the previous own advert is retired, then the new one installed and its closure kept; a failure leaves none |
| `AdvertSlot.AdvertRepublisher.Clear` | packages/service/src/advert-republish.ts:104-112 | the own advert is retired and the closure forgotten |
| `AdvertSlot.AdvertRepublisher.RunnerPublish` | packages/service/src/advert-republish.ts:6-16 | a runner publish on the shared transport is the runner step of the state machine |
| `AdvertSlot.AdvertRepublisher.RunnerStop` | packages/service/src/advert-republish.ts:12-14 | a runner stop of one of its own adverts is the runner step of the state machine |
| `AdvertSlot.RunKeepsInv` | packages/service/src/advert-republish.ts:69-113 | the ownership invariant holds under every interleaving |
| `AdvertSlot.HeldClosureIsTheSlots` | packages/service/src/advert-republish.ts:69-113 | the slot holds a republished advert exactly when the retained closure is that advert's |
| `AdvertSlot.ClosureActsAsOwnership` | packages/service/src/advert-republish.ts:69-113 | under every interleaving one retained id gives the slot that asking for the owner would give |
| `AdvertSlot.RunnerAdvertsAreSafe` | packages/service/src/advert-republish.ts:54-61 | clearing, or a failed republish, leaves no republished advert and never removes a runner advert |
| `AdvertSlot.RepublishedAdvertsAreSafe` | packages/service/src/advert-republish.ts:12-14 | no runner stop takes down a republished advert |

## Left out

- Member rounds, submissions, activity and operator-action rings, seat and capacity snapshots and event times in the
  monitor: bounded logs and display fields that no fate or count depends on.
- The suggested minimum and the explorer URL of an address: one-line computations.
- MuSig2, Schnorr, Taproot, the sparse Merkle tree and canonical JSON: libraries, here functions passed in.
- The runner, the HTTP routes and transport, cookies, server-sent events, IPFS, environment parsing and logs.
- Log lines and the wording of refusals; where several checks refuse, only the fact of refusal is compared.
- The file-system store: only the in-memory store's behaviour is modelled. Its unordered enumeration is.
- `anySignal` and the authoritative funding wait of the transaction builder: a separate loop with its own exit rules.
- The update provider, pin requests and cohort intent: they would add only easy members.
- Resolver construction from a sidecar: the driver is proved for any resolver instead. The resolver library is not part of
  this model; `CasResolution.CasMember` stands for its hash checks and its order of needs in the CAS case.
- Acceptance.AcceptedExactly: does not model a service without a store or key resolver, nor the shape tests on the body, the signature text and the genesis; a body that fails them is refused before any record is read.
- Persist.ProofIsKeptExactly: speaks of one cohort; a later cohort that reuses an update id replaces the proof, as in the source, and `Persist.ProofIsFoundForGood` is what holds over many.
- KillSwitch.LiveWiring.ReleaseCohortTables: does not model releasing the cohort's test peers and funding window.
- KillSwitch.LiveWiring.OnKeygenComplete: does not model the view the watch reports, which is in FundingSurface.
- KillSwitch.LiveWiring.OnCohortFailed: does not model the lapse verdict filed on the way, which is in FundingSurface.
- CohortMonitor.Monitor.OnActivity: does not model members, rounds, capacity and the activity ring.
- CohortMonitor.Monitor.OnCohortFailed: does not model the reason and the seat snapshot of the record.
- CohortMonitor.Monitor.OnBeaconBroadcastFailed: does not model the reason and the seat snapshot of the record.
- CohortMonitor.Monitor.Summary: does not model the order of the rows, nor seats, capacity, reason and time in them.
- FundingSurface.RunKeepsInv: needs room for every watch and each cohort watched once; with a 25th watch the oldest handle goes while its loop runs.
- FundingSurface.FailedCohortAwaitsNothing: needs room for every watch, because evicting a watch handle does not stop it; `FundingSurface.FailedCohortStillAwaits` is a run without room.
