# Verified models of the real-estate CRM back end

Dafny models of the parts of the back end whose correctness spans many steps or many documents, with proofs of what
they promise. `dafny verify dfyconfig.toml` checks the project.

- **Redis client** (`Resp`, `RedisConnection`, `RedisRuns`, `RedisErrors`, `RedisAlignment`): the incremental reply parser, the command
  encoder and the pipelined connection with timeouts, resets and backoff, as a state machine over sends, chunks,
  timeouts, errors and reconnects.
- **Keyset pagination** (`Keyset`): pages, cursors and whole walks, over a fixed and over a changing collection.
- **Lead consolidation** (`Identity`, `LeadGroups`, `LeadMerge`, `LeadMerged`, `LeadConsolidation`, `LeadResume`):
  normalization, union-find with path compression, the merge of a group, deletion and survival, refused updates, stopping
  after any write and running again.
- **CRM migration** (`CrmMigration`, `CrmResume`, `CrmRuns`, `CrmOutcome`, `CrmEnd`, `CrmSources`, `CrmStore`): leads,
  contacts and notes, every single write, what a run leaves, interruption after any write, running again, and the unique
  index built at the end.
- **Follow-up reconciliation** (`FollowUp`, `FollowUpEnd`) and the **viewing conflict sweep** (`ViewingSweep`).
- **Limits** (`RateLimit`, `RateLimitRuns`, `PublicViewing`, `UsageBudget`, `Circuit`, with the keys of the store in
  `RedisKeys`): steps of many interleaved callers.
- **Planners** (`Subdomain`, `SubdomainNames`, `TenantRelations`, `TenantRepair`, `TenantSpecs`, `Gallery`, `PlanLifecycle`,
  `PlanReplacement`) and the **input guard** (`InputTree`).

Documents are records in maps or sequences, single-document updates and scripts are atomic steps, and time is an integer.

Where a promise does not hold for every input, the exact condition is proved, and an input that fails is given:

- An error inside an array reply, followed by further elements, leaves those elements on the stream
  (`Resp.ConsumedWhole`, `Resp.ReplyTakenWholeIff`; `Resp.NestedErrorLeavesElements`), and can mislead the next command
  (`RedisAlignment.HonestRunsIff`, `RedisAlignment.ReplySafeIff`).
- A command timeout of 5000 ms or more, which the configuration allows, lets a late entry survive into the next connection
  and take another command's reply (`RedisAlignment.AlignedIffTimeoutBelowBackoff`;
  `RedisAlignment.LateReplyMisdelivered`).
- A requested page limit between 0 and 1 becomes 0 (`Keyset.LimitBounds`; `Keyset.HalfLimitIsZero`), rows without a value in
  the sort field can end or break a walk (`Keyset.WalkCompleteIff`; `Keyset.WalksThatFail`), and a cursor of more than 1024
  characters is produced but not accepted back (`Keyset.CursorRoundTripIff`; `Keyset.LongCursorRefused`).
- A lead valid only through `normalizedPhone` makes its group count as processed, yet the survivor's phone is taken from
  `phone` alone and can be lost (`LeadMerge.SurvivorPhone`; `LeadConsolidation.PhoneLost`).
- The update of a group without any email sets and unsets the email fields at once, which the store refuses, so the run
  stops with that group's duplicates deleted (`LeadConsolidation.StoppedIff`; `LeadConsolidation.NoEmailStops`). Skipped
  leads keep what they store, so the unique indexes that follow cannot always be built (`LeadConsolidation.IndexableIff`;
  `LeadConsolidation.SkippedClash`).
- Stopping the consolidation between the deletions of a group and its update loses what the deleted leads brought
  (`LeadResume.RerunIff`, `LeadResume.EveryStopIff`; `LeadResume.NoteLost`).
- The script of the rate limiter and its in-memory counter differ for a call on the instant a window ends
  (`RateLimit.SameCountsIff`; `RateLimit.EndInstantDiffers`).
- Half-open does not limit the number of probes (`Circuit.ProbesUnlimited`).
- A subdomain that was generated or kept can fail the format check that follows (`Subdomain.PostCheckIff`;
  `Subdomain.LongNameFails`, `Subdomain.HyphenAtTheCutFails`, `Subdomain.KeptHyphenFails`).
- Stopping the CRM migration right after an open lead was reopened can cut the lead from its contact
  (`CrmOutcome.ResumeIff`; `CrmOutcome.InterruptionLoses`), and the unique index on the sources of contacts cannot always be
  built after it (`CrmSources.UniqueSourcesIff`; `CrmSources.GoneSourceRefused`, `CrmSources.SecondNamerRefused`).
- The follow-up run never removes a second active task, and stops where another task holds a lead's unique slot
  (`FollowUp.EndsOneToOneIff`; `FollowUp.TwoActiveTasks`, `FollowUp.StaleSlotStops`, `FollowUp.SecondHolderStops`).
- The audit marks a missing target with a tenant name, so a tenant of that very name would be overlooked
  (`TenantRelations.ReportedIff`; `TenantRelations.SentinelOverlooked`).
- Clearing the current flags of plan versions does not clear the stored status, so a lower-numbered version taking over
  meets the older one's status for a moment (`PlanLifecycle.EveryWriteKeepsOneStatusIff`;
  `PlanLifecycle.LowerVersionTakesOver`). A replacement beside a stray flag leaves two flagged versions
  (`PlanReplacement.AfterFlagIff`; `PlanReplacement.StrayFlagDoubles`).

## Model

| member | source | states |
|---|---|---|
| `Resp.Parse` | src/shared/redisClient.ts:11-44 | The parser as it runs, a cursor loop with a recursive call per element, computes the parse function for every buffer and offset. |
| `Resp.ParseStable` | src/shared/redisClient.ts:11-44 | A reply that parses keeps its value and its end when more bytes arrive behind it. |
| `Resp.ParseSerialized` | src/shared/redisClient.ts:11-44 | Wherever a well-formed reply lies in a buffer, parsing there gives its value, or its first error, and stops after the bytes that were consumed. |
| `Resp.ConsumedWhole` | src/shared/redisClient.ts:29-41 | A reply is consumed to its last byte if and only if no error is followed by further elements; it is never over-consumed. |
| `Resp.NestedErrorLeavesElements` | src/shared/redisClient.ts:37 | A concrete array with an error before its last element is left partly unread. |
| `Resp.ToNumberSigned` | src/shared/redisClient.ts:18-31 | The number read back from a signed decimal line is the number written. |
| `Resp.EncodeRoundTrip` | src/shared/redisClient.ts:46-49 | Parsing an encoded command anywhere in a buffer gives back exactly its arguments, empty and line-breaking ones included, and ends at its last byte. |
| `Resp.EncodeIsSerialize` | src/shared/redisClient.ts:46-49 | The encoder writes an array of bulk strings of the protocol. |
| `Resp.CommandOnWire` | src/shared/redisClient.ts:46-49 | The command SET with the number -7, byte for byte. |
| `Resp.NumberOnWire` | src/shared/redisClient.ts:46-49 | Numbers are written in as few digits as possible, with a minus exactly when negative. |
| `Resp.FirstLineRead` | src/shared/redisClient.ts:11-44 | What a first line alone says, wherever it stands and whatever it holds: status, error, number and null; an error for a bulk length that is negative or no number; an empty array for such a count; an error for any other prefix. |
| `Resp.NumberRead` | src/shared/redisClient.ts:18-31 | An empty line is 0, digits are their number with a sign or without, anything else is no number. |
| `Resp.DrainStable` | src/shared/redisClient.ts:76-87 | Draining a longer buffer is draining the shorter one and then the leftover with the rest. |
| `Resp.ChunkInvariance` | src/shared/redisClient.ts:76-87 | Any division of the stream into chunks gives the same replies and leftover as the whole stream at once. |
| `Resp.ReplyTakenWholeIff` | src/shared/redisClient.ts:76-87 | One pending command takes exactly its own reply off the stream if and only if no error of that reply is followed by further elements. |
| `Resp.DrainReplies` | src/shared/redisClient.ts:76-87 | From a prefix of a readable reply stream, the drained replies are the first ones in order and the leftover starts the next. |
| `RedisConnection.RedisConnection.RejectPending` | src/shared/redisClient.ts:59-62 | Empties the queue and rejects each entry once, in order. |
| `RedisConnection.RedisConnection.ResetNow` | src/shared/redisClient.ts:64-74 | Drops socket, buffer and readiness; rejects the pending entries only when called with an error. |
| `RedisConnection.RedisConnection.OnData` | src/shared/redisClient.ts:76-87 | The loop over the buffer settles pending entries in order with the drained outcomes and keeps the undrained bytes. |
| `RedisConnection.RedisConnection.SendRaw` | src/shared/redisClient.ts:89-109 | Rejects at once without a socket, else appends the command with its deadline. |
| `RedisConnection.RedisConnection.RejectOne` | src/shared/redisClient.ts:100-106 | A failed write removes and rejects that one command, if it still waits. |
| `RedisConnection.RedisConnection.OnTimeout` | src/shared/redisClient.ts:92-98 | Removes and rejects the late command, starts the backoff and resets without rejecting the others. |
| `RedisConnection.RedisConnection.OnSocketError` | src/shared/redisClient.ts:135 | Drops socket, buffer and readiness, empties the queue, rejects each entry once in order, and starts the backoff of 5000 ms. |
| `RedisConnection.RedisConnection.OnSocketClose` | src/shared/redisClient.ts:136 | Resets, and rejects everything pending, only once the connection was initialized. |
| `RedisConnection.RedisConnection.ConnectNow` | src/shared/redisClient.ts:111-117 | Connects only when not connected, not connecting and past the backoff. |
| `RedisConnection.RedisConnection.OnHandshakeDone` | src/shared/redisClient.ts:145-146 | Marks the connection ready and clears the backoff. |
| `RedisRuns.StepAccounted` | src/shared/redisClient.ts:59-168 | Every enabled step keeps each issued command either waiting once or settled once, with its deadline. |
| `RedisRuns.RunAccounted` | src/shared/redisClient.ts:59-168 | The same over every run. |
| `RedisRuns.SettledExactlyOnce` | src/shared/redisClient.ts:59-168 | In every run a command is settled at most once, only if it was issued, and exactly once as soon as its timeout has passed. |
| `RedisErrors.NothingWaits` | src/shared/redisClient.ts:59-74 | In every run, after a socket error, failing writes, a shutdown or the close of a ready connection no command waits, every command issued so far has been settled exactly once, those that waited were rejected by this event, and connection, buffer and readiness are gone. |
| `RedisErrors.BackoffAfterError` | src/shared/redisClient.ts:111-136 | In every run going on from an error no connection starts for 5000 ms, nothing waits meanwhile and each command issued is settled at once; as long as none has started, one may start if and only if the 5000 ms are over. |
| `RedisErrors.TimeoutRejectsOne` | src/shared/redisClient.ts:92-98 | In every run a time-out rejects its own command and no other, which wait on in their order, and takes the connection away for 5000 ms. |
| `RedisErrors.BackoffAfterTimeout` | src/shared/redisClient.ts:96 | No connection starts within 5000 ms of a time-out, whatever happens in between. |
| `RedisAlignment.DataAligned` | src/shared/redisClient.ts:76-87 | While queue and wire agree, each chunk settles commands only with the replies to them. |
| `RedisAlignment.ConnectAligned` | src/shared/redisClient.ts:114-126 | Once the backoff allows a connection no stale entry is left in the queue. |
| `RedisAlignment.StepAligned` | src/shared/redisClient.ts:59-168 | With a timeout below the backoff, every step keeps the queue in step with the replies to come. |
| `RedisAlignment.RunAligned` | src/shared/redisClient.ts:59-168 | The same over every run. |
| `RedisAlignment.LateReplyMisdelivered` | src/shared/redisClient.ts:92-97 | With a timeout of 5000 ms or more, a concrete run gives a command the reply to another one. |
| `RedisAlignment.AlignedIffTimeoutBelowBackoff` | src/shared/redisClient.ts:92-120 | No run ever gives a command the reply to another, as long as array replies hold no error before their last element, if and only if the command timeout is below the 5000 ms backoff. |
| `RedisAlignment.HonestRunsIff` | src/shared/redisClient.ts:76-87 | With a timeout below the backoff, no run gives a command the reply to another if and only if any consecutive replies, written one after the other, are read back as themselves. |
| `RedisAlignment.ReplySafeIff` | src/shared/redisClient.ts:29-41 | A reply can be followed by any readable reply without misleading its reader if and only if no error of it is followed by further elements. |
| `Keyset.LimitBounds` | src/app/helpers/paginationHelper.ts:19-31 | A page limit is at most the maximum and is 0 exactly for requested limits strictly between 0 and 1. |
| `Keyset.HalfLimitIsZero` | src/app/helpers/paginationHelper.ts:19-31 | A requested limit of one half gives the limit 0. |
| `Keyset.OffsetPages` | src/app/helpers/paginationHelper.ts:19-31 | The page is the requested one rounded down, 1 without one and never above a million, the limit likewise with 20 and the maximum; the full pages before are skipped; only a request without a cursor that skips too much is refused. |
| `Keyset.SortedIsSorted` | src/app/helpers/paginationHelper.ts:41-44 | The stable sort orders exactly the given rows by value, then id, in either direction. |
| `Keyset.SortedUnique` | src/app/helpers/paginationHelper.ts:41-44 | There is only one such order. |
| `Keyset.PageSplits` | src/app/helpers/cursorPagination.ts:33-53 | A page with a next cursor is the head of the sorted matches, and the cursor selects exactly the rest that have a value. |
| `Keyset.WalkAfterCursor` | src/app/helpers/cursorPagination.ts:14-53 | Walking from any cursor terminates and gives exactly the sorted rows behind it. |
| `Keyset.WalkCompleteIff` | src/app/helpers/cursorPagination.ts:14-53 | A walk from the start gives exactly the sorted collection if and only if one page holds all of it, or the limit is at least 1 and either no row lacks a sort value or the order is ascending and fewer rows than the limit lack one. |
| `Keyset.WalksThatFail` | src/app/helpers/cursorPagination.ts:14-53 | Two rows, one without a sort value: descending, or with a limit of 1, or with a limit of 0, the walk is not the sorted collection. |
| `Keyset.MissingComeFirst` | src/app/helpers/cursorPagination.ts:44-47 | Ascending, the last row of the first page has a value if and only if fewer rows than the limit have none. |
| `Keyset.MovingWalk` | src/app/helpers/cursorPagination.ts:14-53 | With inserts and deletes between pages no pair of id and sort value comes twice, every such pair present throughout comes exactly once, and nothing comes that was never there. |
| `Keyset.SteadyIdComesOnce` | src/app/helpers/cursorPagination.ts:14-53 | An id that keeps its sort value comes at most once, and exactly once if it is present throughout with a value. |
| `Keyset.MovedRowComesTwice` | src/app/helpers/cursorPagination.ts:14-53 | An id whose sort value changes between two pages comes twice. |
| `Keyset.PlainCodecLawful` | src/app/helpers/keysetPagination.ts:9-27 | There is a codec that reads back every text, decimal number and date, so what the cursor results ask of the codec can be met. |
| `Keyset.CursorRoundTripIff` | src/app/helpers/keysetPagination.ts:9-27 | Where the codec reads back the payload at hand, decoding an encoded cursor gives the value and id back if and only if its text has 1 to 1024 characters and the value is no non-finite number. |
| `Keyset.LongCursorRefused` | src/app/helpers/keysetPagination.ts:9-27 | A value of 1025 characters gives a cursor that is refused when it comes back. |
| `Keyset.DateCursor` | src/app/helpers/cursorPagination.ts:55-59 | A date comes back from its cursor as the same date through the date parser, and as a text without it. |
| `Keyset.DecodesTo` | src/app/helpers/keysetPagination.ts:9-27 | A cursor gives back a payload if and only if it has 1 to 1024 characters and stands for a text or number with an id of 24 hexadecimal digits; it is called too long exactly above 1024; a row gets a cursor if and only if its id has 24 hexadecimal digits. |
| `Identity.SafePhoneStable` | src/app/db/migratePhase4.ts:7-9 | Normalizing a normalized phone changes nothing, and nothing stays nothing. |
| `Identity.SafeEmailStable` | src/app/db/migratePhase4.ts:10 | Normalizing a normalized email changes nothing. |
| `Identity.SafePhoneIff` | src/app/helpers/identity.ts:26-54 | A phone becomes a given text if and only if that is +8801, a digit from 3 to 9 and eight more, and the digits of the phone are that number, the number without its plus or with 00 for it, or its local form; else it becomes nothing. |
| `Identity.LocalAccepted` | src/app/helpers/identity.ts:33 | A local number is accepted and becomes its international form. |
| `Identity.CompactParts` | src/app/helpers/identity.ts:5-30 | White space and the characters ().- are dropped wherever they stand, Bangla digits become ASCII, all else stays. |
| `Identity.SafeEmailOf` | src/app/helpers/identity.ts:1 | An email is what stands between the white space around it, in lower case. |
| `LeadGroups.Grouping.Find` | src/app/db/migratePhase4.ts:61 | The recursive find terminates, returns the root and compresses the path without changing any root. |
| `LeadGroups.Grouping.Union` | src/app/db/migratePhase4.ts:62 | Joins the two classes under the first root and leaves all others. |
| `LeadGroups.Grouping.Claim` | src/app/db/migratePhase4.ts:70-71 | The first lead with a phone or email owns it; later ones are joined with the owner. |
| `LeadGroups.Grouping.Build` | src/app/db/migratePhase4.ts:65-72 | After all leads two of them have the same root if and only if they are connected by shared phones or emails. |
| `LeadGroups.Grouping.Collect` | src/app/db/migratePhase4.ts:73-74 | The collected groups are the connected components, each once, in lead order. |
| `LeadGroups.GroupLeads` | src/app/db/migratePhase4.ts:59-74 | From leads with distinct ids to exactly the connected components. |
| `LeadGroups.LinkKeepsForest` | src/app/db/migratePhase4.ts:62 | Linking one root below another keeps the parent map acyclic. |
| `LeadGroups.CompressKeepsForest` | src/app/db/migratePhase4.ts:61 | Pointing a node at its root keeps the parent map acyclic and every root. |
| `LeadGroups.RootsAreComponents` | src/app/db/migratePhase4.ts:65-72 | Sound joins and owners that were joined make equal roots and connection the same thing. |
| `LeadGroups.CollectedComponents` | src/app/db/migratePhase4.ts:73-74 | Grouping by root partitions the leads into the components. |
| `LeadMerge.SortFacts` | src/app/db/migratePhase4.ts:14 | The sorted group is chronological and a rearrangement of the group. |
| `LeadMerge.SortStable` | src/app/db/migratePhase4.ts:14 | Leads created at one instant keep their order. |
| `LeadMerge.SortFirst` | src/app/db/migratePhase4.ts:14 | Its first lead is the earliest, of several the first listed. |
| `LeadMerge.MergeLoop` | src/app/db/migratePhase4.ts:20-33 | The loop over the sorted leads leaves the gathered fields, status, last contact and lost reason, the notes, and one history entry for each later lead. |
| `LeadMerge.MergeGroup` | src/app/db/migratePhase4.ts:13-42 | The survivor of the sorted group, which `LeadMerged.SurvivorIsMerge` describes field by field, and the ids of all the others. |
| `LeadMerge.NotesComplete` | src/app/db/migratePhase4.ts:18-21 | The notes hold every non-blank note of the group exactly once and nothing else. |
| `LeadMerge.InterestsComplete` | src/app/db/migratePhase4.ts:22 | The interests hold every interest of the group exactly once and nothing else. |
| `LeadMerge.FollowUpEarliest` | src/app/db/migratePhase4.ts:26 | The follow-up gathered by the loop is the earliest of the group, and missing only when none has one; `LeadMerged.MergedDocument` says it of the document left. |
| `LeadMerge.FirstTextFrom` | src/app/db/migratePhase4.ts:23-25 | A field is the survivor's own, else the first present one, and missing only when all are. |
| `LeadMerge.StageFromLast` | src/app/db/migratePhase4.ts:28-32 | Status, last contact and lost reason are each taken from the last lead, in order of creation, that was updated after the survivor and has one; else they stay the survivor's own. |
| `LeadMerge.SurvivorPhone` | src/app/db/migratePhase4.ts:36 | The survivor's phone is one of the group, and is lost if and only if no lead has a valid `phone` field, whatever its `normalizedPhone`. |
| `LeadMerge.SurvivorEmail` | src/app/db/migratePhase4.ts:38-39 | The same for the email. |
| `LeadConsolidation.LeadCollection.DeleteMany` | src/app/db/migratePhase4.ts:80 | Exactly the named documents go. |
| `LeadConsolidation.LeadCollection.UpdateOne` | src/app/db/migratePhase4.ts:81 | Exactly the target document is replaced; an update that sets and unsets the email fields at once is refused. |
| `LeadConsolidation.LeadCollection.MergeOne` | src/app/db/migratePhase4.ts:75-83 | One group: skipped without a valid phone; else the duplicates are deleted and the survivor written, or, with no email in the group, the duplicates are deleted and the update refused. |
| `LeadConsolidation.RefusedIff` | src/app/db/migratePhase4.ts:38-40 | The update of a group is refused if and only if none of its leads has an email. |
| `LeadConsolidation.Run` | src/app/db/migratePhase4.ts:58-84 | The run ends behind the last connected component or at the first refused one and leaves the collection as the components so far, merged one by one, leave it; it is stopped if and only if some lead with a valid phone is connected to no lead with an email. |
| `LeadConsolidation.StoppedIff` | src/app/db/migratePhase4.ts:75-81 | The same for any listing of the components: stopped means a component with a valid phone and no email. |
| `LeadConsolidation.NoEmailStops` | src/app/db/migratePhase4.ts:80-81 | Two leads with one phone and no email: the second is deleted, the first not merged, and the run stopped. |
| `LeadConsolidation.RunOutcome` | src/app/db/migratePhase4.ts:75-83 | Wherever a run ends, every lead is in one group; a group not reached or without a valid phone keeps all its leads, a merged one exactly its earliest, merged, and a refused one its earliest as it was; no id is invented. |
| `LeadConsolidation.FinalIdentitiesDiffer` | src/app/db/migratePhase4.ts:75-83 | Wherever a run ends, two documents left from merged groups share neither a normalized phone nor a normalized email. |
| `LeadConsolidation.IndexableIff` | src/app/db/migratePhase4.ts:75-91 | A run completes and both unique indexes can be built if and only if no group with a valid phone lacks an email and the skipped leads share no stored phone, the empty text included, and no stored email, among themselves or with a merged group. |
| `LeadConsolidation.SkippedClash` | src/app/db/migratePhase4.ts:90 | Two leads without a valid phone that store the same normalized one, whatever it is: both are skipped and the index is refused. |
| `LeadConsolidation.PhoneLost` | src/app/db/migratePhase4.ts:36 | A lead with an email, a valid normalized phone and no phone: its group is merged, and the merged lead has no phone. |
| `LeadConsolidation.SurvivorsShareNothing` | src/app/db/migratePhase4.ts:75-91 | Survivors of different groups share neither a normalized phone nor a normalized email. |
| `LeadMerged.SurvivorIsMerge` | src/app/db/migratePhase4.ts:13-42 | The merged lead, field by field and read off the sorted group: the earliest follow-up, the first present phone, email, assignee and contact id, status, last contact and lost reason of the last later-updated lead that has one, interests and trimmed notes once each in order of first occurrence, and the ids of all others in the history. |
| `LeadMerged.MergeUnique` | src/app/db/migratePhase4.ts:13-42 | That description leaves nothing open: two leads that fit it are the same. |
| `LeadMerged.MergedDocument` | src/app/db/migratePhase4.ts:75-83 | Wherever a run ends, the document left of a merged group fits it. |
| `LeadMerged.SharesRead` | src/app/db/migratePhase4.ts:67-71 | Two leads are joined directly if and only if they have a phone number or an email in common: the stored one or, without it, the normalized one, each in its normal form. |
| `LeadMerged.ProcessedRead` | src/app/db/migratePhase4.ts:76-77 | A group is merged only if one of its leads has a phone number. |
| `LeadMerged.JoinSplits` | src/app/db/migratePhase4.ts:34 | The notes of two halves of a group are joined by the separator. |
| `LeadResume.MergeTwice` | src/app/db/migratePhase4.ts:13-42 | Merging what a merge left, alone, changes nothing. |
| `LeadResume.RerunIff` | src/app/db/migratePhase4.ts:58-84 | A run that would be completed, stopped after any single deletion or update and run again, completes and reaches the collection of the unstopped run if and only if it was not stopped between the first deletion of a group and its update. |
| `LeadResume.EveryStopIff` | src/app/db/migratePhase4.ts:58-84 | Every stop of such a run can be made good by running it again if and only if no group to be merged has a second lead. |
| `LeadResume.NoteLost` | src/app/db/migratePhase4.ts:80-81 | Two leads of one person, the second with a note: stopped after its deletion, no further run brings the note back, which the unstopped run keeps. |
| `ViewingSweep.ClockOrder` | src/app/db/auditPhase1AtomicOperations.ts:21 | For zero-padded clock times the order of the texts is the order of the minutes. |
| `ViewingSweep.ConflictMeansCommonMinute` | src/app/module/viewing/viewingWindow.ts:7-8 | Two proper windows overlap if and only if they share a minute. |
| `ViewingSweep.KeyIsBucket` | src/app/db/auditPhase1AtomicOperations.ts:19 | The text key separates exactly the tenant and date pairs when dates hold no colon. |
| `ViewingSweep.PruneAgain` | src/app/db/auditPhase1AtomicOperations.ts:21 | Pruning the already pruned list is pruning all earlier rows of the bucket. |
| `ViewingSweep.PrunedList` | src/app/db/auditPhase1AtomicOperations.ts:20-21 | The active list is always the earlier rows of the bucket that still run. |
| `ViewingSweep.SurvivorsSuffice` | src/app/db/auditPhase1AtomicOperations.ts:22-25 | No pruned row conflicts with this or a later row: the recorded findings are those of all earlier rows. |
| `ViewingSweep.AllPairsAre` | src/app/db/auditPhase1AtomicOperations.ts:18-27 | The quadratic list holds every conflicting pair exactly once. |
| `ViewingSweep.Audit.Record` | src/app/db/auditPhase1AtomicOperations.ts:14 | Counts every finding and keeps the first 500. |
| `ViewingSweep.Sweep` | src/app/db/auditPhase1AtomicOperations.ts:15-27 | The sweep counts exactly the pairs of viewings of one tenant and day that share an agent or a property and each begin before the other ends, and reports the first 500 of them, in the order of the later and then the earlier viewing. |
| `RateLimit.MemoryCounters.Consume` | src/app/middlewares/rateLimiter.ts:55-65 | One in-memory call: a new window or one more in the running one. |
| `RateLimit.RedisStore.RateLimitScript` | src/app/middlewares/rateLimiter.ts:26-33 | The script counts as the in-memory counter would with a window one millisecond longer, since a key lives through the last millisecond of its time, and keeps the two in agreement. |
| `RateLimit.SameCountsIff` | src/app/middlewares/rateLimiter.ts:26-65 | Script and in-memory counter give the calls of a key the same counts if and only if no call falls on the very instant a window ends. |
| `RateLimit.EndInstantDiffers` | src/app/middlewares/rateLimiter.ts:26-65 | Calls at 0 and 10 with a window of 10: the second starts a new window in memory and is the second call to the script. |
| `RateLimit.AgreeLater` | src/app/middlewares/rateLimiter.ts:55-65 | Agreement is kept as time passes; empty stores agree. |
| `RateLimit.WindowsApart` | src/app/middlewares/rateLimiter.ts:55-65 | Windows of one key never overlap and count their calls one by one. |
| `RateLimit.CountInWindow` | src/app/middlewares/rateLimiter.ts:55-65 | A counter is the position of the call in its window, so exactly the first `max` calls are admitted. |
| `RateLimit.AtMostTwice` | src/app/middlewares/rateLimiter.ts:55-65 | Any stretch of one window's length admits at most twice the maximum. |
| `RateLimit.KeysApart` | src/app/middlewares/rateLimiter.ts:35-65 | The counter of a key depends on the calls of that key alone. |
| `RateLimit.ShownIsTightest` | src/app/middlewares/rateLimiter.ts:95-107 | The shown limit, remaining and reset are the least, least and greatest over the rules that apply. |
| `RateLimit.ShownRead` | src/app/middlewares/rateLimiter.ts:104-105 | The wait of a rule is the least whole number of seconds, at least one, that reaches the end of its window, and what remains are the calls it still admits there. |
| `RateLimit.DistributedRateLimit` | src/app/middlewares/rateLimiter.ts:93-134 | With no other request in between, one passes if and only if every applicable rule is within its maximum; a refusal names the first rule over it and leaves later rules uncharged. |
| `RateLimitRuns.Limiter.Advance` | src/app/middlewares/rateLimiter.ts:93-134 | One turn of the loop over the rules, between two waits for the store: counts, combines what is shown, or refuses. |
| `RateLimitRuns.PassedIff` | src/app/middlewares/rateLimiter.ts:93-134 | However the turns of many requests interleave, a finished one has passed if and only if every rule that applies to it counted it among the first `max` calls of its window. |
| `RateLimitRuns.RefusedBy` | src/app/middlewares/rateLimiter.ts:107-125 | A refused one was counted over the maximum by one rule and by no rule behind it. |
| `PublicViewing.Counters.Consume` | src/app/middlewares/publicViewingRateLimiter.ts:17-32 | Counts in the clock-aligned window; `retryAfter` is the least whole number of seconds that reaches a later window. |
| `PublicViewing.RowsExact` | src/app/middlewares/publicViewingRateLimiter.ts:21-29 | However expired rows are removed, a row counts all calls of its window until well after the window. |
| `PublicViewing.AllowedIff` | src/app/middlewares/publicViewingRateLimiter.ts:17-32 | Exactly the first `limit` calls of a window are allowed. |
| `PublicViewing.AdmittedInWindow` | src/app/middlewares/publicViewingRateLimiter.ts:17-32 | A window admits the smaller of its calls and the limit. |
| `PublicViewing.AtMostTwice` | src/app/middlewares/publicViewingRateLimiter.ts:16-32 | Any stretch of one window's length admits at most twice the limit. |
| `Circuit.Circuits.Begin` | src/shared/resilience.ts:15-27 | A call is refused while open; after the reset time it is let through and marked as a probe. |
| `Circuit.Circuits.Finish` | src/shared/resilience.ts:41-60 | The update of the shared state by a finished call, in whatever order calls finish. |
| `Circuit.StateOfHistory` | src/shared/resilience.ts:15-61 | For any interleaving the failure count is that since the last success, the open time follows from the last failure at the threshold, and a probe mark implies an open time. |
| `Circuit.HalfOpenDisjunctIdle` | src/shared/resilience.ts:55 | The half-open part of the condition never changes an outcome. |
| `Circuit.RefusedIff` | src/shared/resilience.ts:26 | A call is refused if and only if the threshold was reached since the last success and the reset time after the last failure is not over. |
| `Circuit.RefusedRead` | src/shared/resilience.ts:15-60 | Read off the events: a call is refused if and only if at least five calls, or what the policy says but at least two, threw or answered 429, 500 or more, or an unexpected status, since the last good one, and the last of them is less than 30 s ago, or what the policy says but at least 5 s. |
| `Circuit.ProbesUnlimited` | src/shared/resilience.ts:26-27 | Once half-open, any number of calls are let through before one finishes. |
| `UsageBudget.BudgetStore.RunScript` | src/app/security/usageBudget.service.ts:18-36 | The script as one step on the scope counter and the global counter. |
| `UsageBudget.ReserveOnDay` | src/app/security/usageBudget.service.ts:18-36 | It grants exactly within both limits, names the scope first, changes nothing on refusal and raises both counters by the units on success. |
| `UsageBudget.AllBalanced` | src/app/security/usageBudget.service.ts:18-36 | Over every sequence of requests of a day each counter is the units granted and the global one the sum of the scopes. |
| `UsageBudget.NeverOverLimit` | src/app/security/usageBudget.service.ts:18-36 | Under fixed limits neither a scope nor the sum ever exceeds its limit. |
| `UsageBudget.GrantedIff` | src/app/security/usageBudget.service.ts:51-89 | A request is granted if and only if the units granted before leave room in both limits. |
| `UsageBudget.LateEnough` | src/app/security/usageBudget.service.ts:40-44 | No counter of a day expires before that day and its grace are over. |
| `UsageBudget.UntilMidnight` | src/app/security/usageBudget.service.ts:41-44 | The life of a counter ends five minutes after the midnight that ends the day; its minimum of one minute never matters. |
| `UsageBudget.ScopeExpires` | src/app/security/usageBudget.service.ts:31-34 | A scope has a counter from its first granted request on, and what is granted later does not change when it expires. |
| `UsageBudget.UnitsTaken` | src/app/security/usageBudget.service.ts:52 | A request takes its amount rounded down and at least one unit; no amount or 0 is one unit. |
| `UsageBudget.SumUpdate` | src/app/security/usageBudget.service.ts:31-32 | Raising one scope raises the sum of all scopes by as much. |
| `Subdomain.FixedIff` | src/app/helpers/identity.ts:59-60 | A safe name is left as it is if and only if it is tidy, at most 48 long and does not end in a hyphen. |
| `Subdomain.NormalizeTwice` | src/app/helpers/identity.ts:59-60 | Normalizing is stable from the second time, and from the first unless the cut leaves a hyphen at the end. |
| `SubdomainNames.NormalizedWords` | src/app/helpers/identity.ts:59-60 | The normalized name of any text is its runs of letters and digits, in lower case, with single hyphens between them, cut at 48. |
| `Subdomain.GeneratedSubdomain` | src/app/db/migrateOrganizationSubdomainIntegrity.ts:10-23 | The counted search returns the first free candidate. |
| `Subdomain.GenerateFinds` | src/app/db/migrateOrganizationSubdomainIntegrity.ts:16-22 | It fails only when all 999 candidates are taken, else gives the least free one. |
| `Subdomain.CandidatesDiffer` | src/app/db/migrateOrganizationSubdomainIntegrity.ts:17-19 | Different attempts give different names. |
| `SubdomainNames.AttemptIs` | src/app/db/migrateOrganizationSubdomainIntegrity.ts:10-20 | The name of an attempt: the words of the agency's name cut at 40, or `agency`, kept off the reserved names; the last ten letters and digits of the id, or `tenant`; and the number from the second on. Nothing is ever cut at 63. |
| `SubdomainNames.NumberOf` | src/app/db/migrateOrganizationSubdomainIntegrity.ts:17 | The number at the end is the decimal of the attempt. |
| `Subdomain.AlwaysFindsOne` | src/app/db/migrateOrganizationSubdomainIntegrity.ts:16-22 | With fewer than 999 occupied and reserved names one is always found. |
| `Subdomain.Plan` | src/app/db/migrateOrganizationSubdomainIntegrity.ts:40-72 | The planning loop: names and recorded changes. |
| `Subdomain.ChangesGiveNames` | src/app/db/migrateOrganizationSubdomainIntegrity.ts:55-71 | Applying the recorded changes gives every organization its planned name. |
| `Subdomain.PlannedNames` | src/app/db/migrateOrganizationSubdomainIntegrity.ts:44-72 | Planned names are pairwise distinct, not reserved, at least two long and no alias. |
| `Subdomain.PlannedKept` | src/app/db/migrateOrganizationSubdomainIntegrity.ts:52-58 | An acceptable name that is still free is kept. |
| `SubdomainNames.PlannedName` | src/app/db/migrateOrganizationSubdomainIntegrity.ts:44-72 | Every organization's planned name, read off its own texts and the names taken before its turn: the stored name in its normal form if it has two characters, is not reserved and not taken, else that of the first attempt that is neither. |
| `Subdomain.PlanSucceeds` | src/app/db/migrateOrganizationSubdomainIntegrity.ts:44-72 | The plan succeeds with fewer than 999 aliases, reserved names and organizations together. |
| `Subdomain.CandidatePassesIff` | src/app/db/migrateOrganizationSubdomainIntegrity.ts:10-23 | The name of an attempt is left as it is by the normalizer if and only if the seed, cut at 40, does not end in a hyphen and seed, id suffix and number fit 48 characters. |
| `Subdomain.PostCheckIff` | src/app/db/migrateOrganizationSubdomainIntegrity.ts:40-72 | A planned name passes the format check afterwards if and only if its row, with the names then taken, says so: a kept name was not cut at a hyphen; a generated one has a seed not cut at a hyphen and fits 48 characters at the first free attempt. |
| `Subdomain.LongNameFails` | src/app/db/migrateOrganizationSubdomainIntegrity.ts:165-169 | An agency name of forty letters gets a name that fails the check, for every id with eight or more usable characters. |
| `Subdomain.HyphenAtTheCutFails` | src/app/db/migrateOrganizationSubdomainIntegrity.ts:165-169 | An agency name with a hyphen as its fortieth character gets a name with a doubled hyphen, for every id. |
| `Subdomain.KeptHyphenFails` | src/app/db/migrateOrganizationSubdomainIntegrity.ts:165-169 | A stored name with a hyphen as its forty-eighth character is kept and fails the check. |
| `InputTree.Guard.VisitNode` | src/app/helpers/inputSecurity.ts:91-109 | The recursion with its shared counter computes the visit function. |
| `InputTree.AssertSafeInputTree` | src/app/helpers/inputSecurity.ts:81-112 | A tree is accepted if and only if its depth, array lengths, key names and total key count are within the limits given, or the standard ones where none is. |
| `InputTree.AcceptsIff` | src/app/helpers/inputSecurity.ts:91-109 | The same from any depth and counter; on success the counter has grown by all keys of the subtree, wherever they are nested. |
| `InputTree.VisitIsScan` | src/app/helpers/inputSecurity.ts:91-109 | The walk is a scan of all checks of the tree laid out in reading order, the field names counted along it, and reports the first that fails. |
| `Gallery.NormalizeImages` | src/app/db/migratePhase4PropertyMedia2.ts:13-26 | The loop with its flag computes the normalized gallery. |
| `Gallery.NormalizedFacts` | src/app/db/migratePhase4PropertyMedia2.ts:13-26 | At most 20 images, all from the input, each ordered by its place, and only the first may be featured. |
| `Gallery.NormalizedIs` | src/app/db/migratePhase4PropertyMedia2.ts:13-26 | The normalized gallery, read off the one before: the 20 images that come before all others, featured ones first, then by order, a missing one being the place, then by place; each unchanged but for its number, and at most the first featured. |
| `Gallery.CoverFirst` | src/app/db/migratePhase4PropertyMedia2.ts:16-25 | If any image was featured, the least of them by order and place comes first, else none is featured. |
| `Gallery.Idempotent` | src/app/db/migratePhase4PropertyMedia2.ts:13-26 | Normalizing a normalized gallery changes nothing. |
| `Gallery.TrimAgrees` | src/app/db/migratePhase0PropertyMedia.ts:40-48 | The two migrations agree on every gallery. |
| `Gallery.SameCover` | src/app/db/migratePhase0PropertyMedia.ts:50-58 | The earlier clean-up keeps the same image featured and touches nothing else. |
| `FollowUp.TaskCollection.ReconcileLead` | src/app/db/migrateCrmFollowUpEngine.ts:98-136 | One lead: its first active follow-up task is brought in step, or one is created; if another task holds the unique slot, nothing is written and the duplicate key is reported. |
| `FollowUp.TaskCollection.Cancel` | src/app/db/migrateCrmFollowUpEngine.ts:156-180 | Exactly the active follow-up tasks without an open lead that has a date are cancelled. |
| `FollowUp.TaskCollection.ReconcileLeads` | src/app/db/migrateCrmFollowUpEngine.ts:97-137 | The pass over the leads ends behind the last one, or at the first that meets a taken slot, with the tasks as the leads before left them. |
| `FollowUp.TaskCollection.Run` | src/app/db/migrateCrmFollowUpEngine.ts:35-180 | The run is refused before any write if and only if an open lead is scheduled without a date, has an invalid one, or has a date and no assignee who is an active member of its tenant; a taken slot stops it at exactly the first lead that meets one; else it completes, every open lead with a date has an active task of such a member, and from a one-to-one state nothing is created or cancelled. |
| `FollowUp.ReconcileCounts` | src/app/db/migrateCrmFollowUpEngine.ts:106-136 | A lead's step gives it one task if it had none and touches no other lead's tasks. |
| `FollowUp.ReconcileFirst` | src/app/db/migrateCrmFollowUpEngine.ts:113-120 | After its step a lead's first task agrees with it; other leads' first tasks stay. |
| `FollowUp.CancelKeeps` | src/app/db/migrateCrmFollowUpEngine.ts:166-175 | Cancelling touches no task of an open lead with a follow-up date. |
| `FollowUp.OneEachIff` | src/app/db/migrateCrmFollowUpEngine.ts:97-180 | A run that is not stopped ends with one agreeing active task for each open lead with a date and no other, if and only if no such lead had two before. |
| `FollowUp.StopsAtIff` | src/app/db/migrateCrmFollowUpEngine.ts:113-136 | The run stops at a lead if and only if, at its start, a task other than the one found first for the lead holds its slot, and no earlier lead rewrites that task. |
| `FollowUp.EndsOneToOneIff` | src/app/db/migrateCrmFollowUpEngine.ts:97-180 | The run completes one-to-one if and only if, at its start, no open lead with a date has two active tasks and none meets such a task. |
| `FollowUp.UniqueSlotsKept` | src/app/module/task/task.model.ts:49-56 | A write that is not refused keeps the slots unique. |
| `FollowUp.TwoActiveTasks` | src/app/db/migrateCrmFollowUpEngine.ts:97-180 | Two active tasks of one lead, the first holding the slot, both stay active. |
| `FollowUp.StaleSlotStops` | src/app/db/migrateCrmFollowUpEngine.ts:122-136 | A closed task that still holds the slot stops the run. |
| `FollowUp.SecondHolderStops` | src/app/db/migrateCrmFollowUpEngine.ts:113-120 | So does a second active task that holds the slot when the first one is saved. |
| `FollowUp.SecondRunIdle` | src/app/db/migrateCrmFollowUpEngine.ts:97-180 | From there another run changes nothing. |
| `FollowUpEnd.OldTasksEnd` | src/app/db/migrateCrmFollowUpEngine.ts:97-180 | After a completed run, read off the tasks and leads before: the first active task of an open lead with a date has the lead's agent, date and slot, an active generated task of no such lead is cancelled without a slot, every other task is as before. |
| `FollowUpEnd.NewTasksEnd` | src/app/db/migrateCrmFollowUpEngine.ts:122-136 | Every task added is for an open lead with a date that had no active one, with its agent, date and slot. |
| `FollowUpEnd.StoppedTasks` | src/app/db/migrateCrmFollowUpEngine.ts:97-136 | A run stopped at a lead has brought the first active tasks of earlier open leads with a date in step, and left every other task as it was. |
| `CrmStore.Store.FindContact` | src/app/db/migrateCrmExistingData.ts:264-298 | The linked contact is found exactly when it exists, in the tenant, with no other source, and else the first of the three that fails is told; an unlinked lead gets one naming it as source, if any. |
| `CrmStore.Store.ProcessLead` | src/app/db/migrateCrmExistingData.ts:259-447 | All writes for one lead, in their order, or none when a won lead cannot be converted; `CrmEnd.RunEnds` says what they leave. |
| `CrmStore.Store.SetStatuses` | src/app/db/migrateCrmExistingData.ts:200-206 | Renamed and missing statuses are set, nothing else. |
| `CrmStore.Store.SetManuals` | src/app/db/migrateCrmExistingData.ts:461-471 | Contacts with neither source nor state become active, nothing else. |
| `CrmStore.Store.Run` | src/app/db/migrateCrmExistingData.ts:85-471 | Refused by the preflight without a write, or complete, or stopped at a won lead that has no contact and no name or phone; complete exactly when no lead is of that kind. |
| `CrmEnd.RunEnds` | src/app/db/migrateCrmExistingData.ts:200-471 | What a run leaves, read off the documents it starts from: a contact of a lead keeps tenant, name, phone, assignee and date and takes the lead's assignee or date only where it had none, a contact made has the lead's, one of no lead changes at most an unset state; every field of every lead, and every note. |
| `CrmEnd.PreflightIff` | src/app/db/migrateCrmExistingData.ts:85-187 | A run writes if and only if every status is known, every link leads to a contact of the tenant that names no other lead, no contact is linked by two leads, and no lead has two different links. |
| `CrmEnd.StopsAtIff` | src/app/db/migrateCrmExistingData.ts:318-323 | A run stops at a lead if and only if it is won, has no contact, and lacks a name or a phone. |
| `CrmResume.LeadSteps` | src/app/db/migrateCrmExistingData.ts:302-420 | Every single write for a lead keeps the documents the run will end with, but for reopening an offending lead. |
| `CrmRuns.RunReaches` | src/app/db/migrateCrmExistingData.ts:259-471 | A run ends with no document needing another write, in the state its start determines. |
| `CrmOutcome.Established` | src/app/db/migrateCrmExistingData.ts:259-471 | After a run won, converted and the one active contact of the tenant naming the lead go together, open leads' contacts are legacy, and no contact without a source is left unclassified. |
| `CrmSources.UniqueSourcesIff` | src/app/db/migrateCrmExistingData.ts:480-489 | After a run no two contacts of a tenant store the same source, be it a lead or not, so the unique index can be built, if and only if before it none did and no contact named a lead that was linked to another contact. |
| `CrmSources.EstablishedIff` | src/app/db/migrateCrmExistingData.ts:259-489 | The index can be built and every lead is one-to-one with its contact after a run if and only if the same condition holds before it. |
| `CrmSources.GoneSourceRefused` | src/app/db/migrateCrmExistingData.ts:480-489 | Without any lead, two contacts of a tenant that store the same source keep it, and the index is refused. |
| `CrmSources.SecondNamerRefused` | src/app/db/migrateCrmExistingData.ts:264-298 | An open lead linked to one contact and named by another: the sources are unique before the run and not after it. |
| `CrmOutcome.ResumeIff` | src/app/db/migrateCrmExistingData.ts:290-420 | Every stop after a single write can be run again, in any order, to the same final documents if and only if no open lead is linked through `convertedContactId` alone to a contact that does not name it as source. |
| `CrmOutcome.PreflightAtStops` | src/app/db/migrateCrmExistingData.ts:85-187 | At every stop, the next run passes the preflight again. |
| `CrmOutcome.LostContact` | src/app/db/migrateCrmExistingData.ts:386-398 | Stopped after reopening such a lead, the next run leaves its contact without a source. |
| `CrmOutcome.InterruptionLoses` | src/app/db/migrateCrmExistingData.ts:386-398 | One open lead linked through `convertedContactId` alone: some stop of its migration cannot be made good by running it again. |
| `TenantRelations.CollectFindings` | src/app/db/tenantRelationIntegrity.ts:172-225 | The nested loops give the findings in the order of relations and documents; `TenantRelations.ReportedIff` says which these are. |
| `TenantRelations.FindingsIff` | src/app/db/tenantRelationIntegrity.ts:130-225 | A finding is exactly a flagged document: nothing is missed and nothing else reported. |
| `TenantRelations.ReportedIff` | src/app/db/tenantRelationIntegrity.ts:130-225 | Read off the documents: a reference of a selected document is reported if and only if the target collection holds no document it leads to, or the first such document has another tenant or none, and a document without a tenant where the relation needs one; each finding names its document, reference and repair. |
| `TenantRelations.SentinelOverlooked` | src/app/db/tenantRelationIntegrity.ts:147-156 | A document of a tenant literally named `__missing_target__` with a dangling reference is not reported. |
| `TenantRepair.AuditRun.UnsetOne` | src/app/db/auditTenantRelationIntegrity.ts:70-80 | One update unsets the one matching reference, and counts only if a document changed. |
| `TenantRepair.AuditRun.Run` | src/app/db/auditTenantRelationIntegrity.ts:25-80 | Without apply, or with a blocker, nothing is written; else all repairs are applied. |
| `TenantRepair.NoFindingIntroduced` | src/app/db/auditTenantRelationIntegrity.ts:69-80 | However far the repairs have come, they have introduced no finding. |
| `TenantRepair.AllRemoved` | src/app/db/auditTenantRelationIntegrity.ts:70-78 | After the repairs no document holds a reference that was found. |
| `TenantRepair.CleanIff` | src/app/db/auditTenantRelationIntegrity.ts:41-80 | A fresh audit after applying is empty if and only if the first one had no blocker. |
| `TenantRepair.AppliedLeadsInto` | src/app/db/auditTenantRelationIntegrity.ts:41-80 | After an unrefused apply every reference looked up leads into the tenant of its document. |
| `TenantRepair.AppliedOwned` | src/app/db/auditTenantRelationIntegrity.ts:41-80 | After it every selected document of an ownership relation has a tenant. |
| `TenantRepair.AppliedKeeps` | src/app/db/auditTenantRelationIntegrity.ts:70-80 | It unsets no reference but those reported for repair: all others, and everything else of a document, stay. |
| `TenantSpecs.TableRepaired` | src/app/db/tenantRelationIntegrity.ts:51-126 | In the table in use only single references of tasks and viewings are unset, and both must have a tenant. |
| `TenantSpecs.TableCleanIff` | src/app/db/tenantRelationIntegrity.ts:51-128 | So for that table the fresh audit is empty if and only if there was no blocker. |
| `PlanLifecycle.PlanCollection.Migrate` | src/app/db/migrateSubscriptionPlanLifecycleV2.ts:33-109 | Clear, then set: the two loops leave the planned rows; a row without a plan id stops the run before any write. |
| `PlanLifecycle.HeadIsLatest` | src/app/db/migrateSubscriptionPlanLifecycleV2.ts:50 | The head of the stable sort is the latest effective version by start and number, of several the first listed. |
| `PlanLifecycle.CurrentIffLatest` | src/app/db/migrateSubscriptionPlanLifecycleV2.ts:53-64 | A row becomes current if and only if it is the latest effective version of its family. |
| `PlanLifecycle.CurrentExistsIff` | src/app/db/migrateSubscriptionPlanLifecycleV2.ts:44-50 | A family has a current version if and only if it has an effective one. |
| `PlanLifecycle.LatestUnique` | src/app/db/migrateSubscriptionPlanLifecycleV2.ts:50 | It has at most one. |
| `PlanLifecycle.PlannedRow` | src/app/db/migrateSubscriptionPlanLifecycleV2.ts:52-74 | The outcome for each row, read off the rows before: retired if inactive, ending now unless it has an end; scheduled if it begins later, without a date of change; current if it is the version in force that began last; else grandfathered; and nothing else of it changes. |
| `PlanLifecycle.EveryWriteKeepsOneFlag` | src/app/db/migrateSubscriptionPlanLifecycleV2.ts:102-109 | From at most one flagged version per family every single write keeps at most one. |
| `PlanLifecycle.EveryWriteKeepsOneStatusIff` | src/app/db/migrateSubscriptionPlanLifecycleV2.ts:102-120 | For the stored status, which the clearing leaves, that holds if and only if no new current version is listed before the one it takes over from. |
| `PlanLifecycle.LowerVersionTakesOver` | src/app/db/migrateSubscriptionPlanLifecycleV2.ts:102-109 | Version 1, effective from 100, takes over from version 2, current since 50: after the third write both are current. |
| `PlanLifecycle.PlannedTwice` | src/app/db/migrateSubscriptionPlanLifecycleV2.ts:43-74 | Planning again at the same instant changes nothing. |
| `PlanReplacement.PlanRows.Demote` | src/app/db/migrateSubscriptionCanonicalModelV5.ts:185-202 | The compare-and-set grandfathers the row if it is still current, and tells whether it did. |
| `PlanReplacement.PlanRows.Replace` | src/app/db/migrateSubscriptionCanonicalModelV5.ts:182-204 | Whatever happened to the rows meanwhile, a replacement keeps every earlier version and at most one version current by flag or status, keeps at most one flag if and only if no other version of the plan carries it, and is aborted before the insert when the row is no longer current. |
| `PlanReplacement.PlanRows.Run` | src/app/db/migrateSubscriptionCanonicalModelV5.ts:85-204 | With a blocker nothing is written, else every planned replacement is carried out. |
| `PlanReplacement.OneAfter` | src/app/db/migrateSubscriptionCanonicalModelV5.ts:185-203 | Both the demotion and the insert keep at most one version current by flag or status. |
| `PlanReplacement.FlagAfter` | src/app/db/migrateSubscriptionCanonicalModelV5.ts:185-203 | From at most one flag per family the demotion keeps at most one, and the insert does if and only if no version but the demoted one carries it. |
| `PlanReplacement.AfterFlagIff` | src/app/db/migrateSubscriptionCanonicalModelV5.ts:85-204 | From at most one flag per family, every replacement of a run keeps at most one if and only if no version to be replaced has a flagged one beside it. |
| `PlanReplacement.StrayFlagDoubles` | src/app/db/migrateSubscriptionCanonicalModelV5.ts:182-204 | A grandfathered version with the flag and a current one without it: the replacement leaves two flags. |
| `PlanReplacement.NextIsHighest` | src/app/db/migrateSubscriptionCanonicalModelV5.ts:127-128 | A replacement is current, in the new form and numbered above every version of its plan. |
| `PlanReplacement.RunKeeps` | src/app/db/migrateSubscriptionCanonicalModelV5.ts:182-204 | Over the whole run no family gets a second version that is current by flag or status and no version, so no tenant's assigned one, is lost. |
| `PlanReplacement.UnblockedIff` | src/app/db/migrateSubscriptionCanonicalModelV5.ts:85-126 | A run writes if and only if no active version is still to come, no plan has two current versions, and every current version not in the new form can be put into it. |
| `PlanReplacement.RunEnds` | src/app/db/migrateSubscriptionCanonicalModelV5.ts:127-204 | What such a run leaves, read off the rows before: each current version not in the new form is grandfathered and ends now, and gets one successor, current from now on, numbered one above the highest of its plan, with its limits in the new form; all other rows are as before. |
| `PlanReplacement.SecondRunIdle` | src/app/db/migrateSubscriptionCanonicalModelV5.ts:85-133 | After a run, at any later instant, nothing is left to replace or to block. |
| `PlanReplacement.PlannedOneCurrent` | src/app/db/migrateSubscriptionPlanLifecycleV2.ts:43-109 | The lifecycle migration leaves rows from which a replacement may start. |

## Left out

- Express wiring, configuration, logging, metrics, backups, manifests, index creation and progress reports: input and output around the modelled steps.
- Real sockets, TLS, byte-to-text decoding: the connection is a channel of bytes, a socket and its closing are one step, and a timer fires when it is due.
- Resp.Parse: reads an empty line and signed decimals as numbers; surrounding white space, hexadecimal, fractions, exponents and Infinity, which `Number` reads too, are taken as not a number.
- Queries of the document store: a query is the set or sequence of documents it is specified to return, and ids are unique.
- Text beyond ASCII in names, phones and subdomains (Unicode normalization, case folding), but for the Bangla digits of phones.
- The base64 and JSON libraries: a cursor codec of which it is asked that it reads back the payload at hand; and the pattern check of sort fields, a single branch.
- Hashes of rate-limit and budget keys: keys are the hashed values themselves, so two keys never collide.
- Answers when the store of a limit cannot be reached (status 503, or the in-memory fallback): single branches. A rule's maximum and window are at least 1.
- The loop over tenants of the lead consolidation: one tenant's leads are modelled, and tenants share no state there; a stop in one tenant's turn leaves the later ones as they were.
- Invoices and transactions in the audit of the viewing sweep: each is one query and one branch.
- Titles, legacy date fields and reminders of follow-up tasks: they do not take part in the relation.
- Timestamps, source, property interest and conversion details of the CRM migration: the final documents agree up to the run's timestamps; source and interest are filled in like the assignee, when missing.
- Ids of new documents: a function of the lead or plan that gives unused ids; a run that is repeated gets the same ones.
- CrmOutcome.Established: requires that no second contact of a tenant names a lead as its source before the run; `CrmSources.EstablishedIff` says what holds without. It, `ResumeIff` and `PlanRows` rest on new ids being unused.
- CrmOutcome.ResumeIff: speaks of runs that are not stopped by a won lead that cannot be converted; where a run meets one it stops there, as `CrmStore.Store.Run` states.
- LeadResume.RerunIff: speaks of runs none of whose updates would be refused. The next run reads the leads left in the order of the first one; the store sorts them by creation, which merging keeps, and leads created in the same instant are taken to come in the same order.
- The ids of leads hold no colon, so the slot of a follow-up task, tenant and lead joined by one, tells its lead.
- Checksums over tenants, benefit periods and payments around the plan replacement: no modelled write touches those collections.
- The rewriting of entitlements in a canonical plan version: the model keeps the fields the readiness checks read.
- Media links of a property (`normalizeMedia`) and the write loops of the gallery migrations: independent single updates.
- Moving an alias to a new canonical subdomain and the checks of aliases afterwards: one update each.
