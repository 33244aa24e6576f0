# ProxiPort: a verified model of its core

ProxiPort is a remote-management server with agents. This project models the
parts of it that carry state, concurrency or a nontrivial algorithm, and proves
what they are for. Verify it with `dafny verify dfyconfig.toml`.

| file | models |
|---|---|
| `Framing.dfy`, `AuditChain.dfy`, `AuditWriter.dfy` | the tamper-evident audit log: serialisation, hash chain, verifier, writer |
| `RotatedNames.dfy`, `AuditRotation.dfy` | rotation and pruning of audit-log files, with any call failing |
| `AuditFiles.dfy` | saves, restarts and rotations together, over the whole life of the log |
| `Redaction.dfy` | removal of secrets from logged JSON |
| `Wildcards.dfy`, `GroupTags.dfy` | wildcard and tag filters of client groups |
| `Reestablish.dfy`, `ReestablishMatching.dfy` | which tunnels to bring back after a reconnect |
| `Sessions.dfy` | connecting, reconnecting, teardown and tunnel timers |
| `SessionRecords.dfy`, `SessionLimits.dfy` | what stored client records keep, exactly which steps break it, and runs in which they do |
| `MultiJobs.dfy`, `RepeatedReports.dfy`, `JobReports.dfy` | sequential jobs on many clients, and the results agents report, once or again |
| `Totp.dfy`, `TwoFactor.dfy` | second-factor logins |
| `FilePush.dfy`, `PushTransaction.dfy` | writing a pushed file on the agent, with any call failing, and what every push promises |
| `UdpTable.dfy` | the agent's UDP connection table |
| `Summary.dfy` | extraction of a command's summary |
| `Egress.dfy` | transport chain, candidate list and connection sweep of the agent |
| `Options.dfy`, `Sequences.dfy` | a value that may be missing; elements of a sequence |

## How things are modelled

- Code that changes fields or loops is a class or a method and is proved against
  a specification function; code that runs concurrently is a state machine whose
  steps are the locked regions, and a run is any interleaving of steps.
- HMAC, MD5, case folding, URL and JSON parsing, the code check of a TOTP key, the
  clock and the answers of the database, network and file system are parameters or
  free choices, so every statement holds for all of them. Nothing is assumed
  about the HMAC: the chain theorems end in "or here are two rows with equal
  MACs", and `CollisionIsHmacCollision` turns those into two byte strings.
- 64-bit wrap-around of sequence numbers, timestamps and lengths is modelled.
  SQLite's largest row id bounds the rows of a table.
- Client records and tunnels in `Sessions` are numbered objects held in maps, so a
  handler or timer that holds an outdated reference is visible as such.
- Remote endpoints keep the fields that matching reads; equality of access lists
  and of texts is what the source computes.

## Where the code does less than it says

Each of these has a lemma with a failing case, and a theorem for all inputs or
all runs that says exactly when the code is right.

- Tag filters: an "and" filter that names a tag twice matches nothing, and an
  operator not in lower case passes parsing and then never matches
  (`RepeatedOperandRefuses`, `UpperCaseOperatorRefuses`; exact in
  `MatchesRawTags`).
- Tunnels: the greedy matching is complete for every list of requests exactly when
  no stored tunnel with a random port precedes one of the same text but another
  class (`DisorderDefeatsGreedy`, `CompleteIffOrderly`). The length test also
  counts absent requests (`AbsentRequestGivesUp`, `GivesUpIff`).
- Rotation: an attempt after a failed reopen dereferences a missing provider
  (`PanicIsReachable`, `NextAttemptPanicsIff`).
- Jobs: `saveCmdResult` is documented to find the row that was created before
  dispatch; `createAndRunJob` creates it after. A report that comes first, or that
  cannot be saved, is lost and the sequential run waits for ever
  (`EarlyReportSticks`, `UnsavedReportSticks`, `StuckIffReportLost`). A repeated
  report can make a wait take the wrong job's result (`DuplicateMisleads`);
  `OwnResultsIff` says which do.
- Second factor: two validations that read a session before either consumes it
  can both succeed (`TwoSuccessesOneSession`), and only such two
  (`SecondSuccessHadRead`, `EarlierReaderCanSucceed`); the pending password still
  leaves once.
- TOTP: the step of the previous period is misnumbered inside the first period
  after 1970 (`FirstPeriodMisnumbered`, `StepIsOffsetFromNow`).
- Reconnect: a start overwrites the shared record before it can fail
  (`FailedStartKeepsRecord`), and a teardown or timer that holds an object which a
  new registration has replaced writes it back, with its old connection and
  credential, and takes its route away (`StaleTeardownReplacesRecord`,
  `StaleTeardownRebindsId`, `StaleTeardownSharesCredential`,
  `OldTimerTakesCurrentRoute`). Which steps do so is exact for every run
  (`RecordCarriesLatestIff`, `CredentialKeptIff`, `CredentialsAreUniqueIff`,
  `TeardownLeavesRecordIff`, `TimerLeavesRecordIff`, `TimerTakesRouteIff`).
- File push: a rename that falls back to copying can report an error after the
  destination has changed, a destination that is not a regular file is removed
  before the rename, and one that is the staging path itself is cleared first, so
  that a payload which failed its checksum can stay there (`LateRenameOverwrites`,
  `FailedMoveLosesFolder`, `StagedDestinationLost`, `UnverifiedPayloadStays`; exact
  in `DestinationSurvivesIff`, `StagedDestinationHolds` and
  `StagedDestinationSurvivesIff`).
- UDP: the read loop can write to a connection that has just been closed and
  leaves a timestamp without a connection (`CloseOvertakesWrite`,
  `WriteFailsIff`, `OrphanedIff`).
- Summary: an output that ends inside a summary without an end of line gets one
  added (`OpenSummaryGetsNewline`; `LinesDoNotMatter` says when).
- Audit chain: rows missing at either end of the log go unnoticed
  (`EndDeletionUndetected`), and no other loss of rows does
  (`DeletionUndetectedIff`). Without a key `verifyChain` answers valid, and the
  provider's `Verify` does not.

## Model

| member | source | states |
|---|---|---|
| `Framing.FieldPrefixFree` | server/auditlog/chain.go:39-47 | a length-prefixed field can be cut off a byte stream in only one way |
| `Framing.FieldsInjective` | server/auditlog/chain.go:44-59 | a list of fields is determined by its bytes, whatever the fields contain |
| `Framing.ReadBackFields` | server/auditlog/chain.go:39-47 | a list of fields can be read back from its bytes |
| `AuditChain.CanonicalInjective` | server/auditlog/chain.go:37-61 | the serialisation under the MAC is unambiguous: equal bytes come from equal sequence number, timestamp and fields |
| `AuditChain.ReadBack` | server/auditlog/chain.go:37-61 | the bytes under the MAC can be read back: number, timestamp and the ten fields, in the order they are written |
| `AuditChain.VerifyChain` | server/auditlog/chain.go:77-110 | valid exactly when every chained row has its number, link and MAC right; otherwise the first bad row and its kind of fault are named, and the rows before it counted |
| `AuditChain.FaultMeans` | server/auditlog/chain.go:90-104 | the kind that is reported of a row: gap if its number does not follow, else link if it does not link, else mac if its own MAC is wrong; the first row has only its MAC checked |
| `AuditChain.SuffixAgreement` | server/auditlog/chain.go:77-110 | of two intact chains with the same last MAC, the shorter is the end of the longer, or two different rows have equal MACs |
| `AuditChain.ChainAgreement` | server/auditlog/chain.go:77-110 | the same for whole tables as the verifier sees them, unchained rows in between |
| `AuditChain.IntactNumbers` | server/auditlog/chain.go:94-96 | along an intact chain numbers advance by one, modulo 2^64 |
| `AuditChain.InteriorDeletionDetected` | server/auditlog/chain.go:94-96 | removing rows from the inside is reported as a gap at the row after the hole, and nowhere earlier |
| `AuditChain.FaultAfterHole` | server/auditlog/chain.go:77-110 | whatever rows are removed, in any number of places, a row that is left is reported exactly if rows are missing right before it with others left before those, and then as a gap |
| `AuditChain.DeletionUndetectedIff` | server/auditlog/chain.go:77-110 | removing rows goes unnoticed exactly when what is left is one contiguous stretch |
| `AuditChain.EndDeletionUndetected` | server/auditlog/chain.go:77-110 | every contiguous stretch of an intact chain is intact, so losses at either end are invisible |
| `AuditChain.EditDetected` | server/auditlog/chain.go:97-104 | a row whose content is changed under its old MAC breaks the chain, unless the two contents collide |
| `AuditChain.CollisionIsHmacCollision` | server/auditlog/chain.go:37-61 | two colliding rows are two different byte strings with the same HMAC |
| `AuditWriter.SQLiteProvider.constructor` | server/auditlog/sqlite.go:33-75 | after opening, the cached head is a row with the greatest number, or genesis |
| `AuditWriter.SQLiteProvider.Save` | server/auditlog/sqlite.go:77-129 | a successful insert appends one row that records the timestamp and all the fields of the entry, with the next number, link and MAC, and moves the head to it; a failed one changes neither table nor head |
| `AuditWriter.RowRecordsEntry` | server/auditlog/sqlite.go:77-119 | with or without a key, the stored row records what the entry does |
| `AuditWriter.SQLiteProvider.Verify` | server/auditlog/sqlite.go:133-142 | valid exactly when the chained rows read back are intact, otherwise the first bad row is named; every table the writer can produce is accepted with all its chained rows counted, in whatever order the database returns ties |
| `AuditWriter.SavePreserves` | server/auditlog/sqlite.go:77-129 | a save, failed or not, keeps chained rows numbered 1..n, linked and MACed, with the head at the last |
| `AuditWriter.RestartPreserves` | server/auditlog/sqlite.go:56-75 | a restart, with or without the key, finds the same head again |
| `AuditWriter.RunInvariant` | server/auditlog/sqlite.go:56-129 | that invariant in every state of every run of saves, failed inserts and restarts |
| `AuditWriter.NumberedOrderUnique` | server/auditlog/sqlite.go:138-138 | rows numbered 1..n can be sorted by number in only one way |
| `AuditWriter.ReadBackIntact` | server/auditlog/sqlite.go:133-142 | sorting by number gives back the chained rows in the order they were written, and they are intact |
| `AuditWriter.RunTamperEvident` | server/auditlog/sqlite.go:133-142 | after any run, an accepted table ending at the cached head is the true chained rows less some of the oldest, and all of them if it starts at 1, unless two rows collide |
| `RotatedNames.DigitsOrder` | server/auditlog/rotation.go:40-40 | fixed-width decimals sort as numbers |
| `RotatedNames.SecondsOrder` | server/auditlog/rotation.go:113-115 | calendar order of UTC instants, leap years included, is the order of their seconds |
| `RotatedNames.NameOrderIsTimeOrder` | server/auditlog/rotation.go:113-115 | rotated names sort chronologically, and two instants share a name only within one second |
| `RotatedNames.NameReadsBack` | server/auditlog/rotation.go:113-115 | a rotated name can be read back: year, month, day, hour, minute and second in their places |
| `RotatedNames.LegacyNameOrder` | server/auditlog/rotation.go:41-46 | a name in the old date format sorts before every instant of its day and after every earlier day |
| `RotatedNames.PatternCoversRotated` | server/auditlog/rotation.go:41-46 | the prune pattern covers both name formats and never the live file |
| `AuditRotation.RotationProvider.OpenLive` | server/auditlog/sqlite.go:33-52 | opening creates an empty live file if there is none and changes no content, whether or not it succeeds |
| `AuditRotation.RotationProvider.Reopen` | server/auditlog/rotation.go:218-226 | the provider is present after a successful open and missing after a failed one |
| `AuditRotation.RotationProvider.Rotate` | server/auditlog/rotation.go:117-169 | for every combination of faults, files, handle and outcome are those of the specification that the lemmas below are about |
| `AuditRotation.RotationProvider.PruneRotated` | server/auditlog/rotation.go:176-198 | exactly the covered files beyond the retention count, oldest first, up to the first removal that fails, are gone |
| `AuditRotation.SortedListing` | server/auditlog/rotation.go:181-189 | the covered names, each once, in increasing order |
| `AuditRotation.RotatedConserves` | server/auditlog/rotation.go:117-169 | whatever fails, the multiset of entries over all files is unchanged, no rotated file is overwritten and the live content survives; success leaves an empty live file |
| `AuditRotation.FailedIsUndoneIff` | server/auditlog/rotation.go:133-158 | a failed attempt leaves every file as it was, exactly unless opening the new database and moving the old one back both failed |
| `AuditRotation.SucceedsIff` | server/auditlog/rotation.go:117-169 | an attempt succeeds exactly when nothing fails on the way, there is a live file and the name is free |
| `AuditRotation.TakesSavesIff` | server/auditlog/rotation.go:117-226 | afterwards the provider takes saves exactly when the attempt succeeded, or got past closing and could reopen the database |
| `AuditRotation.NextAttemptPanicsIff` | server/auditlog/rotation.go:117-226 | an attempt meets a missing provider exactly when the one before got past closing, failed, and could not reopen |
| `AuditRotation.PanicIsReachable` | server/auditlog/rotation.go:117-226 | a failed rename and reopen lead there |
| `AuditRotation.PruneKeepsGreatest` | server/auditlog/rotation.go:176-198 | exactly what a prune keeps: files not covered, everything without a retention, the `retention` greatest covered names, and what is left when a removal fails |
| `AuditFiles.RunInvariant` | server/auditlog/rotation.go:117-235 | over every run of saves, restarts and rotations with any faults, every file is one the writer could have produced, and an open provider has the head of the live file |
| `AuditFiles.EveryFileVerifies` | server/auditlog/rotation.go:252-259 | each file on disk, live or rotated, is accepted by verification: its chained rows come back as written, numbered from one and intact |
| `AuditFiles.RunConserves` | server/auditlog/rotation.go:117-235 | over every run of saves, failed inserts, restarts and rotations with any faults, the rows on disk and those in pruned files are exactly those there at the start and those saved since |
| `AuditFiles.RunRecordsEverything` | server/auditlog/rotation.go:117-235 | over every such run, the log and the pruned files record exactly what was recorded at the start and what the saves that were taken handed over |
| `AuditFiles.SaveAfterRotation` | server/auditlog/rotation.go:151-235 | after a rotation that succeeded, or could reopen the database, a save that inserts adds its entry to the live file |
| `Redaction.RedactValue` | server/auditlog/redact.go:75-104 | in whatever order fields are visited, the tree is the redacted one, and `changed` says whether a set secret field occurs at any depth |
| `Redaction.RedactSecrets` | server/auditlog/redact.go:54-73 | the text is rewritten exactly when it parses, holds a set secret and can be written again |
| `Redaction.SpellingsAlike` | server/auditlog/redact.go:80-80 | whether a name is secret does not depend on its letter case |
| `Redaction.ReadsBackRedacted` | server/auditlog/redact.go:54-73 | what is logged reads back as the redacted tree and is clean, when it could be written and reading undoes writing |
| `Redaction.RedactHidesExactlySecrets` | server/auditlog/redact.go:75-104 | two trees redact to the same tree if and only if they differ at most in what set secret fields hold |
| `Redaction.FieldIsPlaceholderIff` | server/auditlog/redact.go:80-117 | a field reads as redacted exactly when it was secret and neither null nor empty, or held the placeholder already |
| `Redaction.RedactIdempotent` | server/auditlog/redact.go:75-104 | redacting twice is redacting once |
| `Redaction.RedactKeepsTheRest` | server/auditlog/redact.go:75-117 | everything outside set secret fields is kept, absent and empty secrets included |
| `Redaction.RedactIsClean` | server/auditlog/redact.go:75-117 | in the result every secret field, at any depth, is unset or holds the placeholder |
| `Redaction.UnchangedIsSame` | server/auditlog/redact.go:85-89 | an unchanged flag means an identical tree |
| `Wildcards.Split` | server/cgroups/group.go:92-92 | the parts hold no wildcard and joined by wildcards give back the pattern |
| `Wildcards.GlobJoin` | server/cgroups/group.go:88-109 | the reference meaning of a pattern: the first part at the front, the others spread in order up to the end |
| `Wildcards.LeftmostIsBest` | server/cgroups/group.go:97-103 | taking the leftmost occurrence of a part never loses a match |
| `Wildcards.MatchesParts` | server/cgroups/group.go:92-106 | the prefix test, suffix test and leftmost search together decide the reference meaning |
| `Wildcards.Matches` | server/cgroups/group.go:88-109 | accepts a value if and only if it splits into the pattern's parts separated by arbitrary strings, ignoring case |
| `GroupTags.MatchesOneOf` | server/cgroups/group.go:73-86 | true exactly when there is no list, nothing on either side, or some pattern matches some value |
| `GroupTags.ParseTag` | server/cgroups/group.go:147-179 | exactly which texts are filters: a list that is not empty, or one key that is and/or up to case over a list that is not empty; and what operator and operands they give |
| `GroupTags.MatchedOperands` | server/cgroups/group.go:121-131 | the collected map holds exactly the operands some value matches |
| `GroupTags.CountDecides` | server/cgroups/group.go:132-141 | comparing the number of matched operands with the list's length means "all matched and none repeated" |
| `GroupTags.MatchesRawTags` | server/cgroups/group.go:111-145 | true exactly when the filter's intended meaning holds, its operator is in lower case, and an "and" list has no repetition |
| `GroupTags.RepeatedOperandRefuses` | server/cgroups/group.go:132-141 | a client carrying the tag is refused by an "and" filter naming it twice, although the filter means to match it |
| `GroupTags.UpperCaseOperatorRefuses` | server/cgroups/group.go:132-141 | so it is by every filter whose operator is not written in lower case |
| `Reestablish.MarkPhase` | server/clients/client_service.go:441-480 | in place, one labelled loop marks for each of its requests the first free compatible tunnel, and fails when there is none |
| `Reestablish.GetTunnelsToReestablish` | server/clients/client_service.go:434-501 | on success, in order, exactly the stored tunnels at the positions that are not marked, each the same in everything but the local side, which a random port leaves open; nothing when a request cannot be served |
| `Reestablish.TargetForm` | share/models/remote.go:130-132 | an IPv6 target, and no other, is written in brackets, with the port after it |
| `ReestablishMatching.MarksSound` | server/clients/client_service.go:434-501 | the marks of a successful call are the image of an injection from the present requests to compatible stored tunnels |
| `ReestablishMatching.ServedAsAsked` | server/clients/client_service.go:441-480 | a request with a local side gets a tunnel of the same text, one without gets a tunnel on a random port with the same target and access list |
| `ReestablishMatching.ClaimedOrReturned` | server/clients/client_service.go:434-501 | each stored tunnel is either claimed by a request or returned, and none is both |
| `ReestablishMatching.TextTells` | share/models/remote.go:118-128 | between tunnels with the same local side and target, the text tells access lists and protocols apart |
| `ReestablishMatching.Exchange` | server/clients/client_service.go:441-480 | any matching can be rearranged to serve the next request as the code does |
| `ReestablishMatching.MarksComplete` | server/clients/client_service.go:434-501 | for orderly stored tunnels, requests that can be served are served |
| `ReestablishMatching.GivesUpIff` | server/clients/client_service.go:434-501 | for orderly stored tunnels, it gives up exactly when the list of requests is longer or no matching exists |
| `ReestablishMatching.AbsentRequestGivesUp` | server/clients/client_service.go:434-440 | an absent request beside one for each stored tunnel makes it give up although all can be served |
| `ReestablishMatching.DistinctTextsAreOrderly` | share/models/remote.go:118-128 | pairwise different texts are enough for that order |
| `ReestablishMatching.DisorderDefeatsGreedy` | server/clients/client_service.go:434-501 | for every disorderly list there are requests that could be served and for which it gives up |
| `ReestablishMatching.CompleteIffOrderly` | server/clients/client_service.go:434-501 | it serves every servable list of requests if and only if the stored tunnels are orderly |
| `Sessions.ObjectInvariant` | server/clients/client_service.go:290-423 | in every run, tunnels of a record carry its connection and have different numbers, and every reference is to an object of the right id |
| `Sessions.SupersededTimerHarmless` | server/clients/client_service.go:1030-1085 | after a reconnect has taken a record over, a timer of the connection before changes no tunnel, route or record, even where tunnel numbers repeat |
| `Sessions.TimerLeavesRecordIff` | server/clients/client_service.go:1051-1085 | in every run, a timer leaves a known record as it is exactly unless the object it holds belongs to that id and still lists the tunnel |
| `Sessions.TimerTakesRouteIff` | server/clients/client_service.go:1051-1085 | in every run, a timer takes the route of a tunnel of a known record away exactly if its own tunnel goes by that route and the object it holds still lists it |
| `Sessions.CurrentTimerRemovesOwnTunnel` | server/clients/client_service.go:1030-1085 | a timer of a listed tunnel removes that tunnel and no other, although it removes by number |
| `Sessions.TeardownLeavesRecordIff` | server/client_listener.go:523-534 | in every run, exactly which teardowns leave the record of an id as it is |
| `SessionRecords.StartEffect` | server/clients/client_service.go:290-423 | what a start that succeeds, fails late or is refused does to the record of its id, and that it leaves every other record alone |
| `SessionRecords.ConnectedIsProtected` | server/clients/client_service.go:318-329 | a request that does not carry the session of a connected client changes nothing |
| `SessionRecords.AcceptedIff` | server/clients/client_service.go:318-410 | exactly which requests make their object the record: own session if connected, own or no credential, and no other holder of it |
| `SessionRecords.SuccessBuilds` | server/clients/client_service.go:290-423 | an accepted start builds as many tunnels as asked for over its connection, numbered on, with timers, and the old routes go |
| `SessionRecords.TeardownEndsSession` | server/clients/client_service.go:603-626 | a teardown of the connection a record carries removes it or leaves it known and disconnected, and cancels the timers of that connection |
| `SessionRecords.AddTunnelAdds` | server/clients/client_service.go:815-876 | a tunnel added to an active client runs over its connection under a number of its own, with its route and timer |
| `SessionRecords.PresenceFollows` | server/clients/clientdata/client.go:487-526 | pings, heartbeats, expiry, deletion and a repeated connection request make a client connected, disconnected or unknown |
| `SessionRecords.StoreEffect` | server/clients/client_service.go:603-626 | a teardown or timer that stores its object makes it the record of its id with its old connection and credential, and leaves every other record alone |
| `SessionRecords.ConnectionStep` | server/clients/client_service.go:290-423 | one step: exactly which steps give a record the latest connection, take it away, or leave it |
| `SessionRecords.RecordCarriesLatestIff` | server/clients/client_service.go:290-423 | in every run, a stored record carries the connection of the latest successful start for its id exactly when, since it last got it, no start failed late and no object with another connection was stored |
| `SessionRecords.LatestIsLastSuccess` | server/clients/client_service.go:290-423 | that connection is the one of the last start step that was accepted and went through |
| `SessionRecords.CredentialStepIff` | server/clients/client_service.go:658-665 | one step: credentials of known ids stay unique exactly unless a teardown or timer stores an object whose credential another known id has |
| `SessionRecords.CredentialsAreUniqueIff` | server/clients/client_service.go:658-665 | every run keeps credentials unique exactly when none of its steps clashed in that way |
| `SessionRecords.BoundStepIff` | server/clients/client_service.go:326-342 | one step: a known id keeps the credential it is bound to exactly unless a teardown or timer stores an object of that id with another |
| `SessionRecords.CredentialKeptIff` | server/clients/client_service.go:326-342 | in every run, an id that stays known keeps its credential exactly when no step rebinds it |
| `SessionLimits.FailedStartKeepsRecord` | server/clients/client_service.go:345-423 | a start that fails late leaves the record connected over its dead connection, and the old teardown ignores it |
| `SessionLimits.StaleTeardownReplacesRecord` | server/clients/client_service.go:603-626 | after a delete and a new registration, the old teardown puts the old object back |
| `SessionLimits.StaleTeardownRebindsId` | server/clients/client_service.go:603-626 | and binds the id to the old credential again |
| `SessionLimits.StaleTeardownSharesCredential` | server/clients/client_service.go:603-626 | an obsolete record revived by its teardown can share another id's credential |
| `SessionLimits.OldTimerTakesCurrentRoute` | server/clients/client_service.go:1051-1085 | after a delete and a new registration, a timer of the old connection takes the route of the current tunnel away and puts the old object back |
| `MultiJobs.RunInvariant` | server/api_helper_jobs.go:235-307 | the invariant of dispatch loop, agents, listener and channel in every state of every interleaving |
| `MultiJobs.SequentialRunsAreSafe` | server/api_helper_jobs.go:235-307 | at most one job is outstanding, no result is dropped by the non-blocking send, each wait takes the result of the job just dispatched, clients go in order, and with abort-on-error nothing follows a failure other than not-connected |
| `MultiJobs.OverMeans` | server/api_helper_jobs.go:251-307 | when the loop is over, every client was tried, or no job id could be got, or the run aborts on errors and the last event was one; a run that does not abort goes on after every failure |
| `MultiJobs.LoopAdvances` | server/api_helper_jobs.go:251-307 | every step of the loop brings it further, so it takes at most three for each client and one more |
| `MultiJobs.ResultsAreReported` | server/client_listener.go:655-700 | every result delivered or received is as an agent reported it |
| `MultiJobs.RowsFollow` | server/api_helper_jobs.go:128-148 | a job gets its row when it was sent or could not be, if storing works, and at no other time |
| `MultiJobs.StuckIffReportLost` | server/client_listener.go:655-700 | a wait can never end exactly when that job's report was lost before: it came before the row was stored, or it could not be decoded, looked up or saved |
| `MultiJobs.EarlyReportSticks` | server/api_helper_jobs.go:63-149 | a report overtaking the stored row leads there |
| `MultiJobs.UnsavedReportSticks` | server/client_listener.go:662-666 | so does a report that is not saved although the row is there |
| `MultiJobs.DuplicateMisleads` | server/client_listener.go:655-700 | one repeated report makes a later wait take the wrong job's result |
| `RepeatedReports.OwnResultsIff` | server/client_listener.go:655-700 | with any repeated reports, every wait takes its own job's result exactly as long as nothing is received while a stray report is first in the channel: one that got in although it was not what an empty-handed wait was for |
| `RepeatedReports.ReceiveTracks` | server/client_listener.go:687-699 | one wait takes another job's result exactly if a stray report has come in and is first |
| `RepeatedReports.OverTakesNothing` | server/client_listener.go:685-699 | nothing is delivered to a run that is over |
| `JobReports.JobStore.CreateJob` | server/api/jobs/jobs.go:389-411 | an existing row is never replaced |
| `JobReports.JobStore.SaveCmdResult` | server/client_listener.go:786-834 | a report is stored only for a job of the reporting client, under the identity of the stored row; otherwise nothing changes |
| `JobReports.RunInvariant` | server/client_listener.go:786-834 | in every interleaving of creations and reports split at the database calls, stored and pending jobs keep the identity the server wrote |
| `JobReports.IdentityNeverChanges` | server/client_listener.go:786-834 | a stored job has the same identity at any two times |
| `JobReports.ReportTouchesOwnJob` | server/client_listener.go:786-834 | a report changes at most its own row, and that row belongs to the client it came from |
| `JobReports.ReportIsStored` | server/client_listener.go:786-834 | a report taken and committed stores what the agent reported under the identity of the row, and leaves every other row alone |
| `JobReports.ForeignReportIsRefused` | server/client_listener.go:793-799 | a report for a job of another client is not taken |
| `JobReports.CreatedIsStored` | server/api/jobs/jobs.go:389-411 | a job that is created is stored as the server wrote it |
| `Totp.Period` | server/totp.go:228-233 | the period of the key if it is positive and fits in 32 bits, and thirty seconds otherwise |
| `Totp.DurationFits` | server/totp.go:228-246 | the duration computed for any offset fits in an int64 |
| `Totp.CheckTotPCodeStep` | server/totp.go:217-254 | accepts exactly when the code is right at one of the three instants, and reports the step of the first that matches |
| `Totp.StepIsOffsetFromNow` | server/totp.go:244-251 | the reported step is the current step plus the offset, except for offset -1 inside the very first period |
| `Totp.FirstPeriodMisnumbered` | server/totp.go:244-251 | an instant at which it is not |
| `TwoFactor.TwoFAService.AcceptTotPStep` | server/2fa_auth.go:67-79 | accepts exactly a step later than the last one booked for the user, and books it |
| `TwoFactor.TwoFAService.RegisterFailure` | server/2fa_auth.go:84-96 | counts against the session only while it is the user's current one, and drops it at the fifth failure |
| `TwoFactor.TwoFAService.SetPendingPasswordChange` | server/2fa_auth.go:171-177 | the password goes to the user's current session and nowhere else |
| `TwoFactor.TwoFAService.Consume` | server/2fa_auth.go:237-247 | gives out the pending password and drops the session only if it is still the current one |
| `TwoFactor.RunInvariant` | server/2fa_auth.go:67-288 | the invariant of sessions, counts, passwords and booked steps in every interleaving of logins and validations |
| `TwoFactor.FailuresAreOwn` | server/2fa_auth.go:84-96 | a stored session has fewer than five failures, each from a validation that read that very session |
| `TwoFactor.PasswordLeavesOnce` | server/2fa_auth.go:187-288 | no session gives out its pending password twice |
| `TwoFactor.PasswordIsOwn` | server/2fa_auth.go:187-288 | whatever a session gives out is what was set on that session last |
| `TwoFactor.OnlyOwnReaderEndsSession` | server/2fa_auth.go:84-96 | in every interleaving, a user's session ends only by a new login of that user, or by a validation that read that very session and succeeded or used up the last failure |
| `TwoFactor.StepsAcceptedOnce` | server/2fa_auth.go:67-79 | section 5.2 of RFC 6238: the steps accepted for a user strictly increase |
| `TwoFactor.LaterStepIsAccepted` | server/2fa_auth.go:67-79 | a step is accepted for a user exactly if it is later than all accepted before |
| `TwoFactor.SucceedsIffPassed` | server/2fa_auth.go:187-288 | a validation that has ended succeeded exactly if its token was right, or its code was and the step was new |
| `TwoFactor.FailureIsNotSkipped` | server/2fa_auth.go:216-235 | one whose code was wrong or used up goes on to count a failure and does not end otherwise |
| `TwoFactor.FailureIsCounted` | server/2fa_auth.go:84-96 | a failure counted while the session is current raises its count by one and ends it at the fifth |
| `TwoFactor.TwoSuccessesOneSession` | server/2fa_auth.go:250-288 | two validations can succeed on one session |
| `TwoFactor.NoReadAfterSuccess` | server/2fa_auth.go:187-288 | a validation that has not read a session when a first one succeeds on it never reads it |
| `TwoFactor.SecondSuccessHadRead` | server/2fa_auth.go:187-288 | of two successes on one session, the later validation had read the session before the earlier one succeeded |
| `TwoFactor.EarlierReaderCanSucceed` | server/2fa_auth.go:250-288 | and any validation that had, and has not failed, can succeed as well |
| `FilePush.UploadManager.Rename` | share/files/files_nix.go:148-158 | in place, for each way a rename, the copy or the mv it falls back to can go, the tree of the specification |
| `FilePush.UploadManager.RemoveCreatedDirs` | client/upload.go:445-453 | in place, removes the listed directories in order up to the first that is full or fails |
| `FilePush.UploadManager.MissingDirs` | client/upload.go:408-428 | the walk up terminates with the missing ancestors the specification lists |
| `FilePush.UploadManager.PrepareDestinationDir` | client/upload.go:408-443 | in place, makes the missing directories or undoes them, and reports them |
| `FilePush.UploadManager.MoveFileToDestination` | client/upload.go:364-402 | in place, replaces the destination, and undoes the directories where that fails |
| `FilePush.UploadManager.CopyFileToTempLocation` | client/upload.go:455-519 | in place, stages the file, and removes it again where writing or the checksum fails |
| `FilePush.UploadManager.HandleWritingFile` | client/upload.go:225-280 | for every combination of faults, answers and leaves on the file system what the specification says that the theorems below are about |
| `PushTransaction.MissingMeans` | client/upload.go:408-428 | the walk up finds exactly the ancestors that do not exist, deepest first |
| `PushTransaction.DirsRemovedEffect` | client/upload.go:445-453 | removing listed directories takes away nothing else; all of them go when nothing else is in them and no removal fails |
| `PushTransaction.DestinationDirEffect` | client/upload.go:408-443 | nothing that existed changes; the directories reported are the new ones, and after a failure with working removals the tree is as before |
| `PushTransaction.SuccessMeans` | client/upload.go:225-280 | success leaves the server's content with the expected checksum at the destination, reports its size, and leaves no staged file |
| `PushTransaction.SuccessSetsAttributes` | client/upload.go:243-259 | success means the mode was allowed and set, and the owner asked for was set unless the current user has it already; a push that cannot set them does not succeed |
| `PushTransaction.AttributedIff` | client/upload.go:289-362 | exactly when mode and owner can be set, and what the file is then |
| `PushTransaction.FaultlessPushSucceeds` | client/upload.go:225-280 | a push that meets no fault succeeds, if the checksum is right, the mode allowed, and both paths can be written |
| `PushTransaction.BlockedMoveStops` | client/upload.go:364-428 | where something that is not a directory is on the way, the move stops before it changes anything |
| `PushTransaction.OthersUntouched` | client/upload.go:225-280 | whatever fails, nothing that was there is touched but the destination and the staging path |
| `PushTransaction.DestinationSurvivesIff` | client/upload.go:364-402 | after a failed push an existing destination is unchanged exactly unless the file was ready and, in the move, the rename of a regular file failed after changing it or a destination of another kind was removed first |
| `PushTransaction.RegularDestinationSurvives` | client/upload.go:364-402 | a regular destination survives every failure but a late one of the rename, whatever else fails |
| `PushTransaction.StagedDestinationHolds` | client/upload.go:455-519 | exactly what a failed push leaves at a destination that is the staging path: the tree as it was, nothing, or, where that cannot be removed, the cut, unverified or finished file it had put there |
| `PushTransaction.StagedDestinationSurvivesIff` | client/upload.go:455-519 | such a destination is unchanged exactly when staging does not get to clearing the path, or what the push put there is the same and could not be removed |
| `PushTransaction.FailureLeavesNothing` | client/upload.go:225-280 | if no removal fails, a failed push leaves nothing new but the upload directory, unless the rename failed late and left something at the destination: then that, and the directories made for it |
| `PushTransaction.FailureLeavesNoStagedFile` | client/upload.go:225-280 | if its removal works, no staged file is left, unless one was there before and staging did not get to replacing it |
| `PushTransaction.LateRenameOverwrites` | share/files/rename.go:61-68 | a push that reports failure and has replaced the destination |
| `PushTransaction.FailedMoveLosesFolder` | client/upload.go:379-397 | a push that reports failure and has removed an empty directory at the destination |
| `PushTransaction.StagedDestinationLost` | client/upload.go:473-488 | a destination that is the staging path is lost when the server's file cannot be opened |
| `PushTransaction.UnverifiedPayloadStays` | client/upload.go:488-517 | a payload with the wrong checksum stays at such a destination when its removal fails |
| `UdpTable.UdpHandler.GetConn` | client/udp.go:60-90 | an existing connection is reused; a new one is stored with a timestamp, or nothing changes when dialing fails |
| `UdpTable.UdpHandler.Close` | client/udp.go:92-105 | the connection and its timestamp go together |
| `UdpTable.UdpHandler.IsActive` | client/udp.go:138-147 | active exactly when unknown or seen within the timeout |
| `UdpTable.RunInvariant` | client/udp.go:34-154 | the invariant of table, loops and open connections in every interleaving |
| `UdpTable.TableMatchesLoops` | client/udp.go:34-154 | stored connections, unfinished receive loops and open connections correspond one to one, and each has a timestamp |
| `UdpTable.TimestampIsLatest` | client/udp.go:60-154 | a timestamp is the instant at which its source was last seen active |
| `UdpTable.ReaderStopsIff` | client/udp.go:34-58 | the read loop stops exactly when dialing or writing fails, its connection is shut, or the stream ends |
| `UdpTable.ClosesOwnConnection` | client/udp.go:92-136 | each close shuts exactly the connection its own loop was started for |
| `UdpTable.WriteFailsIff` | client/udp.go:34-58 | the read loop meets a closed connection exactly when the table no longer holds it |
| `UdpTable.OrphanedIff` | client/udp.go:34-154 | a source has a timestamp without a connection exactly when the read loop marked it after it was closed and no packet of it has come in since |
| `UdpTable.CloseOvertakesWrite` | client/udp.go:34-154 | an interleaving in which the write meets a closed connection and such a timestamp is left |
| `Summary.ProcessLine` | client/command.go:365-385 | the inner loop terminates and extracts one line's share, carrying over whether a summary is open |
| `Summary.Process` | client/command.go:358-391 | the buffer holds what all scanned lines contribute |
| `Summary.CarriageReturnIsDropped` | client/command.go:361-364 | a carriage return before the end of a line is not part of it |
| `Summary.LongLineEndsScan` | client/command.go:361-364 | nothing is read from a line on that is too long |
| `Summary.ExtractLine` | client/command.go:358-391 | extraction distributes over lines: a line's share, then the rest's |
| `Summary.LinesDoNotMatter` | client/command.go:358-391 | working line by line gives the same as working on the whole output, but for an end of line added to an open summary |
| `Summary.SummaryRoundTrip` | client/command.go:358-391 | around a body between tags in any letter case, the summary is exactly the body, ends of line included |
| `Summary.OpenSummaryGetsNewline` | client/command.go:386-388 | a summary still open where the output ends gets an end of line that was not there |
| `Egress.ParseSpec` | client/transport/transport.go:122-159 | an entry is accepted exactly when it is the reserved word or a supported proxy URL with a host; direct only for the reserved word, and only then without a proxy |
| `Egress.BuildChain` | client/transport/transport.go:170-189 | a chain, entry by entry, exactly when every entry parses and only the last is direct; otherwise the first bad entry is named; direct is in it only if the operator wrote it last |
| `Egress.Candidates` | client/client.go:559-578 | all usable combinations, each once, ordered by transport and then server, numbered by position |
| `Egress.CandidatesAreUnique` | client/client.go:559-578 | that determines the list |
| `Egress.CandidatesAre` | client/client.go:559-578 | exactly which servers are candidates over a transport: configured, not empty, and no onion address directly |
| `Egress.PreferredIsFirst` | client/client.go:559-578 | the main server over the first transport comes first, where it can be used |
| `Egress.ServersInOrder` | client/client.go:559-578 | over one transport the main server comes first, then the fallbacks as configured |
| `Egress.DirectIsSuffix` | client/client.go:559-578 | direct candidates form the end of the list |
| `Egress.ConnectToMainOrFallback` | client/client.go:601-621 | dials follow the list and go on only after a failure that is no refusal; the first success is selected, a refusal ends the sweep, and otherwise every error is reported in order |
| `Egress.DirectOnlyAfterEveryProxy` | client/client.go:601-621 | a direct dial means the chain allows it, the server is no onion address, and every usable proxied combination was dialled before and failed without refusal |
| `Egress.LaterOnlyAfterEarlier` | client/client.go:601-621 | a dial over a transport means every usable combination over an earlier one failed |
| `Egress.AlertIffDowngrade` | client/client.go:657-666 | the downgrade line is written exactly for a direct connection of an agent with another transport configured |

## Left out

- HTTP handlers, routing, SSH, WebSocket and SFTP plumbing, SQL text and migrations, logging, frontend.
- The one-time ticket store, the staged-upload registry, `CapacityBuffer` and `LimitedWriter`: they would only add easy members.
- Multi-client jobs that run concurrently instead of sequentially: no order is promised for them.
- The loops of `executeMultiClientJob`, and the bodies of `StartClient`, `Terminate` and the timers, are steps of a state machine and not methods, because other goroutines act between them.
- `StartClient` is one step, as its lock per client id makes it for one id; two starts of different ids racing for one credential are not modelled.
- Listeners and ports of tunnels: releasing them before a reconnect is modelled only for downstream routes.
- Symbolic links, WAL and journal files, the sudo fallback of chown, and files changed by other programs.
- Summaries with characters outside ASCII, for which lower-casing can change byte positions.
- Delivery and expiry times of second-factor tokens: an expired or wrong token is a failed check.
- Recognition of .onion addresses, proxy dialling, timeouts, retry and switchback of the agent's connection.
- RedactSecrets: the case in which the redacted tree cannot be written again returns the raw text as the source does; that it never happens is not stated.
- InteriorDeletionDetected: does not cover removing an exact multiple of 2^64 rows, which restores the numbering.
- FaultAfterHole: covers chains of up to 2^64 rows, which is more than a table can hold, for the same reason.
- DeletionUndetectedIff: covers chains of up to 2^64 rows likewise.
