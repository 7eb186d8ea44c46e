# Burnell, modelled and proved in Dafny

Burnell is a proxy in front of an Apache Pulsar cluster. Most of it passes requests on; this project
models the parts that keep state or compute something of their own, and proves what they promise.

| file | what it models |
|---|---|
| `LogReader.dfy`, `LogSession.dfy` | the log server's paging of a growing file, and a client that reads it in both directions |
| `TenantPlan.dfy`, `TenantDb.dfy` | tenant plans as sparse patches, and the tenant database kept as a log that every replica folds into a map |
| `TopicStats.dfy`, `BrokerGather.dfy` | paging and counting topic statistics, and collecting broker statistics over a bounded channel |
| `UsageMeter.dfy`, `MetricFilter.dfy` | usage metering from scraped samples, and the filter over the metrics text |
| `KeyHealer.dfy` | keys and role tokens kept as secrets, and their healing |
| `Subjects.dfy`, `TopicNames.dfy` | the grammar of token subjects and of full topic names |
| `RateLimiter.dfy` | the request limiter under concurrent requests |
| `FunctionCache.dfy` | the cache of function records and worker ids |
| `Text.dfy`, `Integers.dfy`, `Sorting.dfy`, `Groups.dfy`, `CounterSums.dfy` | string splitting, machine integers, sorting, grouping and summing shared by the others |

Objects whose methods change fields are classes, and their methods are proved equal to functions of the
old state; what the program promises is then proved about those functions, over all inputs and all runs.
Whatever comes from outside (the clock, generated keys, the order of a map or of an index, replies of
other servers, whether a send succeeds) is a parameter or a step, and every statement holds for all its
values. `dafny verify dfyconfig.toml` checks the whole project.

## Where the code keeps less than it promises

- The forward loop of the log server never ends when the unread bytes hold no newline
  (`ForwardLoopEndsIff`, `UnfinishedLineHangs`), and a backward read fails when its widest window lacks
  two newlines (`BackwardSucceedsIff`), so the "complete log lines" that line 60 of the repository's README.md
  promises can be had only where lines are short enough. The final backward page repeats lines the client
  already holds exactly when the cursor is below 2400 and a line ends between it and there
  (`FinalBackward`, `FinalPageRepeats`).
- A session opened on a short file whose last line is unfinished never shows the start of that line
  (`OpenConsistent`, `OpenLosesLastLine`); on every other file no byte is lost (`SessionFromOpen`).
- The tenant database sends to the topic and writes its map in two steps. Two writers of one tenant, or a
  lookup that missed just before the plan arrived, leave a map that disagrees with a topic read to its
  end (`StaleUpdateDiverges`, `StaleFreePlanDiverges`). A late map write lets the listener still get every
  name right exactly when it is `Timely` (`LateWriteHarmlessIff`), and a run is right throughout exactly
  when all its late writes are (`AlwaysRightIff`). A restart of the listener mends the map
  (`RestartMends`).
- An update is laid over the cached plan, so a replica that has not read a patch drops it, with its audit
  trail (`LaggingUpdateLosesPatch`). Nothing is dropped exactly when the cached plan equals the topic's last
  entry in every field an update may keep (`UpdateDropsNothingIff`, `UpdatesUpToDateIff`), as after any
  update of one's own (`UpdaterHoldsLast`) or once the listener has passed that entry (`PassedHoldsLast`).
- The stored retention of an updated plan is its hours exactly when they fit a duration; a new plan keeps
  whatever retention it was given, and ignores its hours (`RetentionExact`, `CreationIgnoresHours`).
- Paging through topic statistics panics on a negative offset or page size and on an overflowing sum
  (`PanicsIff`, `NegativeOffsetPanics`), which the handler passes on from the request unchecked.
- A refused request releases a slot it never acquired, so the limiter admits more than its size: as many
  more as there were refusals, and that many can be reached (`LimiterBounds`, `LimitExceeded`).
  A handler that panics keeps its slot, so as many panics as there are slots close the limiter
  (`PanicsClose`), until refusals open it again (`RefusalsReopen`).
- The healer mends lost role tokens and a wholly lost key pair, but answers the loss of one key secret
  with half of a new pair (`HealPairsIff`, `LostPublicKeyMispaired`). A key secret that is there but
  cannot be read counts as lost: a role token missing at that time is signed by a pair that is never stored, and kept
  (`BlindHealIff`, `StaysSignedIff`, `BlindRunMissigns`).
- The id of a usage row runs tenant, namespace, topic and pod together, so different topics can overwrite
  each other's rows (`CollidingTopics`, `CollisionLosesUsage`). Over a run of scrapes the latest row of every
  series is kept exactly when no two series share an id (`RunKeepsLatestIff`), and then the usages add up to
  those rows (`RunAddsUp`).
- The key of a function record runs tenant, namespace and name together, so a function can be served the
  record of another (`SharedKey`); all get their own exactly when no two functions share a key (`OwnRecordsIff`).
- The filter for a subject lets every namespace through that starts with the subject (`SubjectSeesIff`), so
  that of a tenant with a longer name as well (`LongerNameSeen`).
- A full topic name is parsed back from its parts except when an empty namespace follows a tenant that
  ends in a colon (`ExtractPrinted`, `ColonTenantLost`).

## Model

| member | source | states |
|---|---|---|
| `LogReader.PostLineComplete` | src/logserver/logserver.go:201-208 | a forward page is everything up to and including the last newline of its window, and is empty without one |
| `LogReader.PreLineComplete` | src/logserver/logserver.go:211-219 | a backward page starts right after the first newline, holds a newline itself, and exists exactly when the window has two |
| `LogReader.LogFile.ReadAt` | src/logserver/logserver.go:109-114 | exactly n bytes at the offset, or an error for a negative offset or a window past the end |
| `LogReader.FileReader.constructor` | src/logserver/logserver.go:56-80 | both positions start at the end of the file unless a positive one is given |
| `LogReader.FileReader.ReadForward` | src/logserver/logserver.go:125-157 | nothing and position 0 when nothing is unread, else the bytes up to the line end the growing windows find |
| `LogReader.FileReader.ReadBackward` | src/logserver/logserver.go:88-122 | the bytes from the found line start up to the cursor, or a forward page from 0 near the start, or which error; both positions are left as they were |
| `LogReader.ForwardReadIs` | src/logserver/logserver.go:125-157 | nothing and position 0 when nothing is unread, and else the bytes up to a later line end |
| `LogReader.BackwardReadNear` | src/logserver/logserver.go:94-106 | within its window a backward read answers the first lines, up to the last newline of a window no smaller than the position |
| `LogReader.BackwardReadFar` | src/logserver/logserver.go:108-121 | above it the bytes from a line start below the cursor, or no bytes and the error that says whether position or window left the file |
| `LogReader.ForwardEndInFirstWindow` | src/logserver/logserver.go:137-154 | a forward page ends at the last newline of the first window that has one, and at a line end |
| `LogReader.ForwardLoopEndsIff` | src/logserver/logserver.go:137-154 | with unread bytes, the forward loop ends exactly when they hold a newline |
| `LogReader.ForwardLoopEnds` | src/logserver/logserver.go:137-154 | the loop that ends returns the end position ReadForward is specified by |
| `LogReader.UnfinishedLineSpins` | src/logserver/logserver.go:137-154 | on a one-byte file without newline no number of passes ends the loop |
| `LogReader.BackwardStartAligned` | src/logserver/logserver.go:108-120 | a backward page ends at the cursor, starts below it right after a newline, and has a complete line |
| `LogReader.BackwardSucceedsIff` | src/logserver/logserver.go:108-120 | above its window a backward read succeeds exactly when the position is within the file and the widest window that fits has two newlines |
| `LogReader.ShortLinesFirstWindow` | src/logserver/logserver.go:108-118 | from a line end, with every line shorter than the window, the first window succeeds |
| `LogSession.Read` | src/logserver/logserver.go:160-181 | one request makes one reader, reads in its direction, and answers both positions as Serve says |
| `LogSession.AskForward` | src/logserver/logserver.go:125-181 | every answer to a request with a forward position: the bytes up to a line end beyond it, nothing and 0 exactly when nothing is unread, or none exactly when no newline is unread; with the backward position it carries |
| `LogSession.AskBackwardNear` | src/logserver/logserver.go:94-106 | within the window a request without a forward position is answered with the first lines and position 0, up to the last newline of the first window that holds one, or never, exactly when the file has no newline |
| `LogSession.AskBackwardFar` | src/logserver/logserver.go:108-181 | above it with the bytes between a line start and the cursor, or with an error; the forward position is the file size |
| `LogSession.AskSucceedsIff` | src/logserver/logserver.go:108-121 | exactly when it is answered: the cursor is within the file and the widest window that fits has two newlines |
| `LogSession.OpenSucceedsIff` | src/logserver/logserver.go:66-73 | exactly when a request without positions is answered with positions to go on from, for any file |
| `LogSession.OpenConsistent` | src/logserver/logserver.go:66-73 | it is answered with the last lines of the file; bytes fall between page and cursor exactly for a file that fits the window and does not end in a newline |
| `LogSession.OpenLosesLastLine` | src/logserver/logserver.go:66-106 | a file of three bytes whose last one is in no page, with the forward cursor past it |
| `LogSession.UnfinishedLineHangs` | src/logserver/logserver.go:88-181 | a request on that file is never answered |
| `LogSession.ForwardKeeps` | src/logserver/logserver.go:125-157 | a forward answer moves the cursor exactly when a complete line is unread, and delivers just the bytes it passes |
| `LogSession.EarlierBackward` | src/logserver/logserver.go:108-120 | a backward answer that is not the final page delivers just the bytes between the new cursor and the old one, and stays above 0 |
| `LogSession.EarlierBackwardIff` | src/logserver/logserver.go:108-120 | exactly when such a call moves the cursor; otherwise nothing changes |
| `LogSession.FinalBackward` | src/logserver/logserver.go:94-106 | the final page starts with all bytes below the cursor and repeats nothing exactly when the cursor is at least 2400 or no line ends in between |
| `LogSession.FinalPageRepeats` | src/logserver/logserver.go:94-106 | a session on a file of 2401 bytes whose final page repeats byte 2 |
| `LogSession.SessionExact` | src/logserver/logserver.go:88-181 | over every interleaving of appends, forward and backward reads the pages held are exactly the bytes between the client's two cursors, and a gap below them is never opened nor closed |
| `LogSession.FileGrows` | src/logserver/logserver.go:88-181 | over every interleaving the file is what it was, with all that was appended after it |
| `LogSession.SessionFromOpen` | src/logserver/logserver.go:88-181 | the same from the opening request on any file; with the final page cut at the backward cursor the client holds every byte from the first exactly when the file was longer than the window or ended in a newline |
| `LogSession.BackwardWalkEnds` | src/logserver/logserver.go:88-122 | paging back reaches the first byte or meets a failing call within as many calls as there are bytes below the cursor |
| `LogSession.BackwardWalkCompletes` | src/logserver/logserver.go:88-122 | with lines of at most 2399 bytes paging back always reaches the first byte |
| `LogSession.ForwardWalkCompletes` | src/logserver/logserver.go:125-157 | on a file at rest, tailing delivers everything up to the last newline |
| `TenantPlan.ReconcileTenantPlan` | src/policy/pulsardb.go:254-295 | the field-by-field assignments amount to a creation or to a patch laid over the existing plan, or to a refusal of the plan type |
| `TenantPlan.UpdateSets` | src/policy/pulsardb.go:275-309 | every field of an updated plan is what the request sets, and the existing plan's where it sets nothing; the audit trail grows by the request's |
| `TenantPlan.ChainSetsNumber` | src/policy/pulsardb.go:275-309 | over any chain of accepted updates each number and the status are those of the last request that sets them, or else the existing plan's |
| `TenantPlan.ChainSetsText` | src/policy/pulsardb.go:275-309 | the same for organisation, users, policy name and feature codes |
| `TenantPlan.CreationSets` | src/policy/pulsardb.go:263-273 | a creation keeps the request but for the policy, status and first word of audit it leaves out |
| `TenantPlan.PlanTypes` | src/policy/policy.go:107-159 | the five plan types in any mixture of cases, and the policy of each |
| `TenantPlan.OverlayAssociative` | src/policy/pulsardb.go:275-292 | laying patches over each other is associative |
| `TenantPlan.TwoPatches` | src/policy/pulsardb.go:275-293 | two accepted updates of an existing plan equal one update by the second patch laid over the first, in every field |
| `TenantPlan.PatchChain` | src/policy/pulsardb.go:275-293 | any chain of accepted updates, at any times, equals one update at the last time by all patches laid over each other |
| `TenantPlan.AcceptedUpdate` | src/policy/pulsardb.go:254-309 | the old audit trail is a prefix of the new one, and the status is reserved only if both sides left it so |
| `TenantPlan.ChainKeeps` | src/policy/pulsardb.go:254-309 | the same along any chain of updates |
| `TenantPlan.RetentionExact` | src/policy/pulsardb.go:257-286 | exactly when the stored retention is the stored hours: for an update when the request's hours, or the existing plan's where it has none, are at most 2562047 either way; for a creation when its values agree already or it has no policy of its own |
| `TenantPlan.CreationIgnoresHours` | src/policy/pulsardb.go:257-286 | a new plan asked for with hours only is stored without retention; the same request as an update gets it |
| `TenantDb.TenantPolicyHandler.Receive` | src/policy/pulsardb.go:122-141 | one message is folded into the map: put, or removed when its status is Deleted |
| `TenantDb.TenantPolicyHandler.Restart` | src/policy/pulsardb.go:88-112 | a new reader starts at the earliest message and leaves the map as it is |
| `TenantDb.TenantPolicyHandler.GetTenant` | src/policy/pulsardb.go:203-210 | the map's entry or not found |
| `TenantDb.TenantPolicyHandler.UpdateDb` | src/policy/pulsardb.go:161-194 | the plan is appended to the topic, then put in the map if the send was acknowledged |
| `TenantDb.TenantPolicyHandler.UpdateTenant` | src/policy/pulsardb.go:145-158 | reconciles with the cached plan and updates topic and map, or changes nothing when refused |
| `TenantDb.TenantPolicyHandler.GetOrCreateTenant` | src/policy/pulsardb.go:213-223 | a missing name gets a free plan in the map only |
| `TenantDb.TenantPolicyHandler.DeleteTenant` | src/policy/pulsardb.go:226-243 | appends the plan marked Deleted and drops the name once that is acknowledged |
| `TenantDb.GetOrCreateAnswers` | src/policy/pulsardb.go:213-223 | the answer is what the map then holds: the old plan where there was one, else an activated free plan; no other name changes |
| `TenantDb.UpdateOutcome` | src/policy/pulsardb.go:145-194 | an accepted update is in topic and map, in the topic alone, or nowhere, as the send ends |
| `TenantDb.DeleteOutcome` | src/policy/pulsardb.go:226-243 | a deletion appends the cached plan with status 4 and takes just that name out of the map once acknowledged |
| `TenantDb.ReceiveStaysOnCourse` | src/policy/pulsardb.go:134-139 | receiving keeps every name right that has no later entry ahead |
| `TenantDb.AppendStaysOnCourse` | src/policy/pulsardb.go:183-192 | an append keeps every replica on course, whatever the sender does to its own map under that name |
| `TenantDb.ReplicasConverge` | src/policy/pulsardb.go:103-243 | over every run of any number of replicas with whole operations, a replica at the log end maps each name to its last entry, or to nothing but an automatic free plan if that was Deleted or there is none |
| `TenantDb.ListeningCatchesUp` | src/policy/pulsardb.go:122-141 | a replica that goes on receiving reaches the end of the topic with all of it folded into its map |
| `TenantDb.ListeningRests` | src/policy/pulsardb.go:122-141 | at the end of the topic receiving changes nothing |
| `TenantDb.RestartRereads` | src/policy/pulsardb.go:88-141 | a restarted one folds in the whole topic again, over the map it has |
| `TenantDb.OwnStepsShow` | src/policy/pulsardb.go:145-243 | a replica sees its own update, deletion or lookup at once |
| `TenantDb.OnCourseIffEndsRight` | src/policy/pulsardb.go:122-141 | the invariant the runs keep holds exactly when listening to the end of the topic gets every name right |
| `TenantDb.LateWriteHarmlessIff` | src/policy/pulsardb.go:190-192 | a map write made apart from its send lets the listener still get every name right exactly when it is timely |
| `TenantDb.AlwaysRightIff` | src/policy/pulsardb.go:183-222 | over whole interleavings a handler would end up right from every point exactly when every late write is timely |
| `TenantDb.RaceRests` | src/policy/pulsardb.go:122-222 | nor does a lookup that finds its name, or a call that has made all its writes |
| `TenantDb.RacesConverge` | src/policy/pulsardb.go:183-222 | convergence for every interleaving of single sends, receives and map writes whose late writes are timely |
| `TenantDb.PromptUpdateIsTimely` | src/policy/pulsardb.go:183-192 | the writes of a call that is not interrupted are timely |
| `TenantDb.PromptFreePlanIsTimely` | src/policy/pulsardb.go:214-221 | so is the free plan of a lookup that is not interrupted |
| `TenantDb.PromptUpdateIsAtomic` | src/policy/pulsardb.go:161-194 | send and map write without interruption are the whole update |
| `TenantDb.PromptDeleteIsAtomic` | src/policy/pulsardb.go:226-243 | send and both map writes without interruption are the whole deletion |
| `TenantDb.RestartMends` | src/policy/pulsardb.go:88-142 | whatever interleaving went before, a restarted listener that reads to the end has every name right again, if no late write is untimely meanwhile |
| `TenantDb.RaceStaysGrounded` | src/policy/pulsardb.go:134-222 | in every interleaving a map holds logged names and automatic free plans only |
| `TenantDb.StaleUpdateDiverges` | src/policy/pulsardb.go:183-192 | a run of two writers after which a replica at the log end maps the name to the older plan |
| `TenantDb.StaleFreePlanDiverges` | src/policy/pulsardb.go:214-221 | a run after which a replica at the log end hides a logged plan behind a free one |
| `TenantDb.UpdateDropsNothingIff` | src/policy/pulsardb.go:145-158 | no update drops anything of the topic's last entry exactly when the cached plan equals that entry in every field an update may keep |
| `TenantDb.UpdatesUpToDateIff` | src/policy/pulsardb.go:145-158 | deleted and unknown names included, updates come out as on a replica that has read everything exactly when the cached plan is as good as what the topic says |
| `TenantDb.UpdaterHoldsLast` | src/policy/pulsardb.go:145-194 | after an update of its own a handler's map holds the last entry, whatever its listener has read |
| `TenantDb.PassedHoldsLast` | src/policy/pulsardb.go:122-141 | so it does once the listener has passed that entry |
| `TenantDb.UpdatePatchesLastEntry` | src/policy/pulsardb.go:145-158 | an update through a handler that holds the topic's last entry appends the patch laid over it, audit trail kept |
| `TenantDb.UpdateRunPatches` | src/policy/pulsardb.go:145-158 | then any run of updates leaves the old entry with all patches laid over it as the last one |
| `TenantDb.CaughtUpRunPatches` | src/policy/pulsardb.go:145-158 | in particular when no entry of the name is ahead of the listener |
| `TenantDb.LaggingUpdateLosesPatch` | src/policy/pulsardb.go:145-158 | a run of two replicas in which the second update starts a new plan and the first patch is lost |
| `TopicStats.PaginateTopicStats` | src/policy/topic-stats.go:418-485 | the page of the sorted fresh ids from the offset on, with total and next offset; no page for an offset beyond the total or an unreadable index; a panic for bounds out of order |
| `TopicStats.PanicsIff` | src/policy/topic-stats.go:470-480 | exactly when a call panics: an offset within the total, and a negative offset or page size or a sum beyond 63 bits |
| `TopicStats.NoPageIff` | src/policy/topic-stats.go:470-472 | no page exactly for an offset beyond the number of fresh rows |
| `TopicStats.FreshRowsAre` | src/policy/topic-stats.go:430-435 | the rows paged through are exactly those of the last 90 seconds |
| `TopicStats.NegativeOffsetPanics` | src/policy/topic-stats.go:470-480 | offset -1 panics whatever the index holds |
| `TopicStats.PageCanonical` | src/policy/topic-stats.go:425-484 | a page does not depend on the order of the index; the total is constant and the offset moves on |
| `TopicStats.WalkIsKeyWalk` | src/policy/topic-stats.go:467-484 | following the offsets, each call with an index order of its own, pages through one listing |
| `TopicStats.WalkPartitions` | src/policy/topic-stats.go:418-485 | each fresh row is shown by exactly one page, that of its place in sorted order, with its data |
| `TopicStats.PagesInOrder` | src/policy/topic-stats.go:474-484 | of two fresh rows the one with the smaller id, a prefix or with the smaller character at the first difference, is on no later page |
| `Sorting.LeqMeans` | src/policy/topic-stats.go:475 | the order sorted by is the dictionary order of the characters |
| `TopicStats.CallsAreCeiling` | src/policy/topic-stats.go:476-480 | the number of calls is the total divided by the page size, rounded up, or one |
| `TopicStats.PagesAreFresh` | src/policy/topic-stats.go:430-435 | no page shows anything but fresh rows |
| `TopicStats.CountTopics` | src/policy/topic-stats.go:111-134 | groups the fresh ids by namespace in index order, and counts all rows; -1 for an unreadable index |
| `TopicStats.CountsAddUp` | src/policy/topic-stats.go:111-134 | the sizes of the groups add up to the total paged through, which the count reaches or exceeds |
| `TopicStats.GroupsPartitionPages` | src/policy/topic-stats.go:117-131 | the groups are a partition of exactly the ids paged through |
| `TopicStats.GroupsKeepOrder` | src/policy/topic-stats.go:117-131 | a group lists its rows in index order |
| `BrokerGather.SelectWindow` | src/policy/topic-stats.go:489-507 | which offsets and limits are refused and why, which panic because their sum overflows, and the nonempty window otherwise: as many brokers from the offset on as the limit allows, or all for neither |
| `BrokerGather.WindowMeans` | src/policy/topic-stats.go:489-507 | the exact condition of each refusal and of the overflow; else the brokers from the offset on, as many as the limit or all that are left; all of them without offset and limit |
| `BrokerGather.WindowsTile` | src/policy/topic-stats.go:501-507 | following the offsets over a fixed list visits each broker once, in order |
| `BrokerGather.NoQueryBlocks` | src/policy/topic-stats.go:517-522 | in every interleaving a query that has not sent finds room in the channel, after a timeout too |
| `BrokerGather.AnswersAreSent` | src/policy/topic-stats.go:520-522 | in every interleaving the answer of a broker is what its query sent first, under its name |
| `BrokerGather.LastReceiptSucceeds` | src/policy/topic-stats.go:527-532 | collecting succeeds with the last result received, and not before |
| `BrokerGather.EndIsFinal` | src/policy/topic-stats.go:526-537 | a timer ends the collecting with what there is, and nothing is collected after an end |
| `BrokerGather.SuccessIsComplete` | src/policy/topic-stats.go:525-532 | a success holds exactly the one answer of every broker in the window |
| `BrokerGather.TimeoutIsPartial` | src/policy/topic-stats.go:533-537 | what a timeout returns is a part of the answers sent |
| `BrokerGather.StepsProgress` | src/policy/topic-stats.go:520-539 | every send and receipt that changes anything brings the end nearer |
| `BrokerGather.CollectorProgresses` | src/policy/topic-stats.go:520-539 | until the end a query can send or a result waits, so such a step exists |
| `UsageMeter.Meter.UpdatePerBrokerTenantUsage` | src/metrics/federated-prometheus.go:307-345 | a good sample upserts the row of its id and notes the tenant; a bad topic or metric name changes nothing |
| `UsageMeter.RowOfIff` | src/metrics/federated-prometheus.go:307-335 | a sample makes a row exactly for a full topic name and one of the five metrics; the row bears the parts of the name, the broker, and an id made of all of them |
| `UsageMeter.Meter.BuildTenantUsage` | src/metrics/federated-prometheus.go:286-303 | takes in the tenant metrics of one scrape, family by family, sample by sample |
| `UsageMeter.Meter.GetTenantUsage` | src/metrics/federated-prometheus.go:365-390 | the 64-bit sum over the tenant's rows |
| `UsageMeter.Meter.GetTenantNamespacesUsage` | src/metrics/federated-prometheus.go:393-431 | one usage per namespace with a row, the 64-bit sum of its rows, and no other |
| `UsageMeter.Meter.GetTenantsUsage` | src/metrics/federated-prometheus.go:348-362 | one usage per noted tenant, in the order visited |
| `UsageMeter.MetricOfId` | src/metrics/federated-prometheus.go:84-90 | a row id belongs to one metric name only |
| `UsageMeter.ScrapeOrderIrrelevant` | src/metrics/federated-prometheus.go:286-345 | every order of the metric families gives the same table and tenants |
| `UsageMeter.ScrapeAgain` | src/metrics/federated-prometheus.go:286-345 | taking in the same scrape again changes nothing |
| `UsageMeter.ReachableSound` | src/metrics/federated-prometheus.go:336-342 | in every reachable table each row's tenant is noted and stands under its own id |
| `UsageMeter.NotedIff` | src/metrics/federated-prometheus.go:286-342 | the tenants noted are exactly those of the full topic names sampled under one of the five metrics |
| `UsageMeter.NamespacesAddUp` | src/metrics/federated-prometheus.go:365-431 | the namespace usages of a tenant add up, modulo 2^64, to the tenant's own |
| `UsageMeter.TenantsAddUp` | src/metrics/federated-prometheus.go:348-390 | over every reachable table the tenants' usages add up, modulo 2^64, to the sum of all rows |
| `UsageMeter.RunKeepsLatestIff` | src/metrics/federated-prometheus.go:286-345 | over every run of scrapes the table holds the latest row of every series exactly when no two series of the run share an id |
| `UsageMeter.RunAddsUp` | src/metrics/federated-prometheus.go:286-390 | then the tenants' usages add up, modulo 2^64, to the latest values of all series |
| `UsageMeter.TenantMetered` | src/metrics/federated-prometheus.go:286-390 | each counter of a tenant is the 64-bit sum of the latest values of its own metric over the tenant's sources, for the five metrics by name |
| `UsageMeter.NamespaceMetered` | src/metrics/federated-prometheus.go:286-431 | so is each counter of a namespace, which is named tenant/namespace |
| `UsageMeter.UsagesMetered` | src/metrics/federated-prometheus.go:286-390 | and those of all noted tenants together |
| `UsageMeter.LabelValueIs` | src/metrics/federated-prometheus.go:288-299 | a label has the value of its last pair, and the empty one without any |
| `UsageMeter.RunKeepsAllIff` | src/metrics/federated-prometheus.go:286-345 | the table has a row for every good sample of the run exactly when no id repeats |
| `UsageMeter.DistinctAreLatest` | src/metrics/federated-prometheus.go:286-345 | then those rows are the latest of their series, so totals and usages are those of all good samples |
| `UsageMeter.CollidingTopics` | src/metrics/federated-prometheus.go:313-342 | two topics whose names run together alike leave one row, the later one, and the first tenant none |
| `UsageMeter.CollisionLosesUsage` | src/metrics/federated-prometheus.go:313-342 | such topics exist, so a noted tenant may have its traffic counted for another |
| `MetricFilter.FilterFederatedMetrics` | src/metrics/federated-prometheus.go:192-221 | the text written is the kept lines, each ended by a newline |
| `MetricFilter.LinesMakeText` | src/metrics/federated-prometheus.go:194-200 | the lines of a text make up all of it, an unfinished last line included |
| `MetricFilter.SubjectMatchIff` | src/metrics/federated-prometheus.go:196-205 | the pattern of a subject free of expression syntax matches exactly the lines that have the namespace label directly followed by the subject |
| `MetricFilter.SubjectSeesIff` | src/metrics/federated-prometheus.go:196-205 | a line with one such label is let through exactly when its namespace starts with the subject |
| `MetricFilter.LongerNameSeen` | src/metrics/federated-prometheus.go:196-219 | the subject "acme" is shown a sample of the tenant "acme2" |
| `MetricFilter.FilterKeepsReadings` | src/metrics/federated-prometheus.go:199-219 | the output has the matching samples of the input, in order, each under the same TYPE line |
| `MetricFilter.FilterIsClean` | src/metrics/federated-prometheus.go:206-217 | the output has nothing but matching samples and TYPE lines directly followed by one |
| `MetricFilter.FilterIdempotent` | src/metrics/federated-prometheus.go:199-219 | filtering twice is filtering once |
| `MetricFilter.FilterDistributesIff` | src/metrics/federated-prometheus.go:198-219 | exactly when filtering two parts apart gives the same; always if the second starts with a TYPE line |
| `MetricFilter.TextFilterIdempotent` | src/metrics/federated-prometheus.go:192-221 | the same on whole texts, split into lines and put together again |
| `KeyHealer.SecretStore.CreateSecret` | src/k8s/clientset.go:131-151 | creating fails and changes nothing when the name is taken |
| `KeyHealer.KeysJWTs.Create` | src/workflow/keys-jwt.go:212-241 | creates both key secrets and a token for every trimmed role, where the names are free |
| `KeyHealer.KeysJWTs.Repair` | src/workflow/keys-jwt.go:244-269 | creates the missing role tokens, signed by the loaded key; a token that is there but cannot be read is left as it is |
| `KeyHealer.RolesAre` | src/workflow/keys-jwt.go:319-329 | the roles are the comma parts of the configured ones, each without the blanks around it |
| `KeyHealer.FiledAre` | src/workflow/keys-jwt.go:222-231 | the tokens kept in memory are one for each role, signed by the key at hand |
| `KeyHealer.Cluster.Create` | src/workflow/keys-jwt.go:141-167 | exports a newly generated pair and its tokens |
| `KeyHealer.SecretStore.GetKey` | src/workflow/keys-jwt.go:272-285 | the named file of the secret, or none when the secret or the file is missing or the read fails |
| `KeyHealer.Cluster.Healer` | src/workflow/keys-jwt.go:170-209 | creates when a key secret is missing or its read fails, fails when the keys do not parse, repairs otherwise |
| `KeyHealer.HealOverwritesNothing` | src/workflow/keys-jwt.go:170-269 | whatever the store holds, a run leaves every secret in it untouched |
| `KeyHealer.HealBlank` | src/workflow/keys-jwt.go:174-178 | from a store without keys and tokens a run creates one pair and every token signed by it |
| `KeyHealer.SecretsByName` | src/workflow/keys-jwt.go:212-241 | the names of the secrets and files such a run creates, and what is in them |
| `KeyHealer.PartsHaveTokens` | src/workflow/keys-jwt.go:170-329 | after every run that does not fail each configured role has its token |
| `KeyHealer.HealFailsIff` | src/workflow/keys-jwt.go:170-192 | a run fails, and changes nothing, exactly when both keys are read and one does not parse |
| `KeyHealer.HealHealthy` | src/workflow/keys-jwt.go:187-208 | from a healthy store a run that reads the keys restores every token with the same key, and a second run changes nothing whatever it can read |
| `KeyHealer.BlindHealIff` | src/workflow/keys-jwt.go:174-184 | a run that cannot read a key secret leaves a healthy store healthy exactly when no role token was missing |
| `KeyHealer.HealingRuns` | src/workflow/keys-jwt.go:170-285 | over every unspoiled sequence of runs, failed reads and lost role tokens the first pair stays, signs every token, and each run completes the tokens |
| `KeyHealer.StaysSignedIff` | src/workflow/keys-jwt.go:170-285 | every token stays signed by the stored pair all along exactly when no later run both fails to read a key secret and meets a lost token |
| `KeyHealer.HealPairsIff` | src/workflow/keys-jwt.go:170-209 | exactly when a run, whatever reads fail, leaves a matching pair |
| `KeyHealer.LostPublicKeyMispaired` | src/workflow/keys-jwt.go:170-241 | with only the public key lost, a run leaves keys of two different pairs |
| `KeyHealer.BlindRunMissigns` | src/workflow/keys-jwt.go:170-241 | after a first run, a lost token and a run that cannot read the private key, a token is signed by a pair that is not stored |
| `Subjects.VerifySubjectIff` | src/route/handlers.go:887-930 | exactly which first subjects are accepted for a tenant, and that the subjects after the first comma never matter |
| `TopicNames.ExtractPrinted` | src/util/util.go:154-169 | slash-free parts printed under either scheme are recovered, exactly unless an empty namespace follows a tenant ending in a colon |
| `TopicNames.ColonTenantLost` | src/util/util.go:154-169 | the tenant "t:" with an empty namespace is not recovered |
| `TopicNames.PrintExtracted` | src/util/util.go:154-169 | parts that were extracted are slash-free and print back to the name |
| `TopicNames.PartitionTopicIff` | src/policy/topic-stats.go:600-607 | the pattern match followed by the cut accepts exactly base, "-partition-" and one to five digits, base starting in a-z without a newline, and returns the base |
| `TopicNames.ParsePartitionIs` | src/util/util.go:201-206 | exactly the names with the prefix lose it, and the answer says which |
| `TopicNames.ParsePartitionPrinted` | src/util/util.go:201-206 | the partition prefix is taken off again, and a name without it is left alone |
| `RateLimiter.Sema.Acquire` | src/route/semaphore.go:44-51 | takes a slot unless all are taken |
| `RateLimiter.Sema.Release` | src/route/semaphore.go:54-61 | gives a slot back if any is taken |
| `RateLimiter.LimitRate` | src/route/middleware.go:137-147 | an admitted request whose handler returns leaves the slots as they were, one whose handler panics keeps its slot, a refused one frees a slot of another |
| `RateLimiter.ServedAndFree` | src/route/middleware.go:137-147 | as many requests as slots are served at once, and all slots are free when their handlers have returned |
| `RateLimiter.LimiterBounds` | src/route/middleware.go:137-147 | in every interleaving, panics included, tokens are at most the size and the requests served plus the panics, and the requests in flight at most the size plus the refusals |
| `RateLimiter.LimitExceeded` | src/route/middleware.go:137-147 | for every size and number of refusals a run that reaches that bound |
| `RateLimiter.OverloadedServes` | src/route/middleware.go:137-147 | in the state that run reaches, as many requests are served at once as the size plus the refusals |
| `RateLimiter.AllFreeIff` | src/route/middleware.go:137-147 | with nothing served all slots are free exactly when refused requests gave back as many as panics kept and idle releases missed; before any refusal, exactly when no handler panicked |
| `RateLimiter.PanicsClose` | src/route/middleware.go:137-147 | as many panics as slots leave nothing served and every arrival refused |
| `RateLimiter.RefusalsReopen` | src/route/middleware.go:137-147 | from there each refused request frees one slot |
| `FunctionCache.FunctionMap.ParseServiceRequest` | src/logclient/reader.go:217-230 | a message adds its record unless the key is there |
| `FunctionCache.FunctionMap.UpdateWorkerIDInFunctionMap` | src/logclient/reader.go:113-128 | sets the instance's entry of a known key |
| `FunctionCache.FunctionMap.GetFunctionWorkerID` | src/logclient/reader.go:388-414 | answers from a recent entry, else from a status query, whose first matching instance is stored |
| `FunctionCache.LookupWithoutQuery` | src/logclient/reader.go:388-400 | an unknown key is not found and an entry under three minutes old is answered, without any change |
| `FunctionCache.LookupWithQuery` | src/logclient/reader.go:402-414 | the worker is that of the reply's first entry about the instance, put on record for it alone; not found exactly when there is none |
| `FunctionCache.WorkerRemembered` | src/logclient/reader.go:113-128 | a worker found is answered to any further lookup of the instance for three minutes |
| `FunctionCache.FirstRecordStays` | src/logclient/reader.go:104-110 | over any replays and lookups a key holds the record of the first message with it, and no other key is there |
| `FunctionCache.OwnRecordIff` | src/logclient/reader.go:104-110 | a function is served its own record exactly when the first message with its key was about it |
| `FunctionCache.OwnRecordsIff` | src/logclient/reader.go:104-230 | over every run all functions read are served their own records exactly when no two of them share a key |
| `FunctionCache.SharedKey` | src/logclient/reader.go:217-230 | two functions whose tenant, namespace and name run together alike; the second is served the record of the first |
| `FunctionCache.InstancesStay` | src/logclient/reader.go:104-128 | keys, records and worker entries stay over any further steps |
| `FunctionCache.ReplayChangesNothing` | src/logclient/reader.go:203-213 | a replay of messages already read changes nothing |
| `FunctionCache.WorkerIdsAreRecent` | src/logclient/reader.go:388-411 | a worker id returned was reported for that instance by a status reply less than three minutes before or in the same call |

## Left out

- LogReader.FileReader.ReadForward: its precondition is that the unread bytes are none or hold a newline, because otherwise the loop never returns; `ForwardLoopEndsIff` proves that this is exactly the case, and the session treats such a call as one that changes nothing for the client.
- LogReader.FileReader.ReadBackward: the same precondition, for the forward read it makes near the start of the file.
- LogSession.Read: the same precondition, that the request is one that returns.
- LogReader.FileReader.constructor: the file can be opened; the error for one that cannot is not modelled.
- TenantDb.ReplicasConverge: takes each operation as one step, because with send and map write apart the replicas can diverge; `RacesConverge` and `AlwaysRightIff` treat the separate steps.
- TenantDb.RacesConverge: needs every late map write to be timely, because an untimely one leads the listener to a wrong map (`LateWriteHarmlessIff`).
- KeyHealer.HealingRuns: needs role names other than `private-key` and `public-key`, whose tokens would take the place of the key secrets, a store without keys and role tokens at the start, and no later run that both fails to read a key secret and meets a lost token; `StaysSignedIff` proves that last condition exact.
- KeyHealer.StaysSignedIff: takes every generated pair to differ from the first; a repeated pair would sign like the stored one.
- KeyHealer.SecretStore.CreateSecret: a creation that fails although the name is free is not modelled.
- TopicStats.PaginateTopicStats: the same clock value is used for every row; the fetch of mandatory topics is not modelled, as it does not change the page returned by the call.
- TopicStats.WalkPartitions: lists have at most 2^62 entries, as do those of `BrokerGather.WindowsTile`, so that no offset and page size within them overflow.
- BrokerGather.SelectWindow: the list of brokers is a parameter, shorter than 2^63.
- UsageMeter.Meter.UpdatePerBrokerTenantUsage: a row with an empty tenant, namespace or topic is refused by the table as a whole; the in-memory database behind it may file such a row under some of its indexes. Update times are not kept.
- UsageMeter.Meter.BuildTenantUsage: starts from parsed samples with unsigned 64-bit values; the conversion from floating point and the caching of scrapes are not modelled.
- UsageMeter.Meter.GetTenantUsage: the index it reads is a parameter, any listing of the tenant's rows.
- UsageMeter.Meter.GetTenantNamespacesUsage: likewise, and the usages are returned as the map they are built in.
- UsageMeter.Meter.GetTenantsUsage: likewise, with the tenants in the order visited.
- MetricFilter.FilterFederatedMetrics: whether a line matches the subject's pattern is an arbitrary predicate, so that all statements hold for every subject; which lines match is stated for subjects free of regular-expression syntax (`SubjectMatchIff`). Carriage returns and the scanner's limit on line length are not modelled.
- FunctionCache.FunctionMap.ParseServiceRequest: messages carry function details; one without them stops the original with a fault.
- FunctionCache.FunctionMap.GetFunctionWorkerID: the status query is a parameter, and is taken to be answered at the time its result is stored.
- Positions and offsets of the log server are unbounded integers; they fit 64 bits for files below 2^63 - 2400 bytes. A reader is one request long, so file handles, which the server leaves open, are not modelled, nor is a file that shrinks.
- A message of the tenant topic is the plan its decoding yields; malformed messages and the encoding itself are not modelled. Plan type names are lowered letter by letter only as far as decides whether they name a plan.
- Signing is the pairing of key and subject, and keys parse back from what was stored; failures of key generation and of signing are not modelled.
- HTTP handlers, routing, redirects, web sockets, gRPC and generated protocol code, the Pulsar and Kubernetes clients, configuration, logging, JSON and the Prometheus text parser.
- Feature codes, limits evaluated against other servers, the raw response cache, and component types: lookups and comparisons without state of their own.
