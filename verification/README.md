# Verified models of the LuLab backend

Dafny models of the parts of this NestJS backend that carry algorithms or state machines, with proofs of what
they keep over every input, run or interleaving. `dafny verify dfyconfig.toml` checks all of it.

| modules | what they model |
|---|---|
| TableOrder, DatabaseCleaning, PartlyModelled | the depth-first table ordering of the seed script and the loop that clears the database in that order |
| Bitable | the search-then-update-or-create operation on a remote table |
| BitableBatch, BitableChunks, BitableRaces, BitableOverlaps, BitableSequels | its batch form: remote calls that interleave inside a chunk, chunk after chunk; what equal keys do inside one chunk and across chunks |
| RefreshTokens, Duration, TokenBlacklist, TokenRotation, TokenRuns, TokenContexts, TokenDefence | the refresh-token table, the lifetime text, the blacklist with its two stores, issuing, rotation and logout column by column, and how table and blacklist back each other up |
| OneShot, RefreshRaces, FamilyRaces, CodeRaces, UserRaces | refreshes of one token, verifications of one code, and upserts of one user that overlap |
| RateLimit, Callers, LoginPolicy, LoginRuns, Validators, Verification, SendLimits, OneTimeCodes | a sliding-window limiter whose check and write are separate steps, used for login lockout and for sending one-time codes; the life of a code |
| Transcript, TextAnalysis, TextWords, Keywords | the transcript printer and its split, word and character counts, text cleaning, the words of a text by position, keywords and their similarity |
| Participants, ParticipantSteps, ParticipantRuns, ParticipantLists, ParticipantColumns, ParticipantRaces | the row that meeting events keep for each meeting in the remote table: its participant list and every other column, one event after the other and overlapping |
| Sanitizer | the masking of logged webhook bodies |
| PlatformUsers, PlatformUserRuns, PlatformRows | platform users and meetings that meeting events write to the relational database, and what each column holds |

Code that changes state is a class or a method with loops, proved equal to a specification function of the old
state; the theorems about whole runs are lemmas about those functions.

## Assumptions

- There is one clock and it never goes back. A service call is atomic unless a statement says its steps interleave.
- Writes that may fail (database, Redis, mail, remote replies without a record) are inputs, so every statement
  without a proviso covers both outcomes.
- A remote update overlays the fields it is given, a remote search returns records in a stable order and its first
  one is used, and remote comparison ignores case. An array or object in a match field is compared by its printed
  text. A list of record ids written to a link field reads back as it was written.
- Lower-casing is modelled for ASCII letters. Texts are sequences of Unicode characters, without unpaired surrogates;
  lengths are counted in UTF-16 code units where the code counts them.
- The database refuses to delete a row that a row of another table points at, the strictest setting of a foreign
  key; TRUNCATE CASCADE follows the foreign keys backwards.
- A new jti was not handed out before, and two tokens never share a hash. Tokens verify when they were signed here,
  are unaltered and have not expired.
- A code row's creation time is the instant from which its expiry is computed.
- Prisma leaves a column unchanged when an update gives `undefined` for it.

## Where the code does less than it says

Where the code keeps such a promise under a condition, the condition proved is the exact one.

- prisma/seed.ts:192-197 says that referring tables come first. For an edge that holds in every listing exactly when
  there is no way back (`TableOrder.EdgeAlwaysOrderedIffNoWayBack`), and every content is cleared exactly when the
  schema has no cycle through distinct tables (`DatabaseCleaning.AlwaysEmptiedIffAcyclic`); for a fixed set of modelled
  tables the exact condition is on the turns of the loop (`PartlyModelled.EmptiedWithIff`).
- A chunk of a batch upsert ends with the one-by-one number of records, however its calls interleave, exactly when no
  two of its requests share a key that is new (`BitableRaces.CountAgreesIffNewKeysDiffer`). Requests that share a key of
  the table leave the one-by-one contents exactly when they send no different values and, with mergeFields, write back
  nothing that another one changes (`BitableOverlaps.ContentsAgreeIffCompatible`).
- A refresh token is meant for one exchange. It is exchanged as often as refreshes of it overlap
  (`RefreshRaces.ExchangedAtMostIff`), and families keep to one live token exactly when no two refreshes of a token
  overlap (`FamilyRaces.FamiliesStaySingleIff`). Later it passes the database check again exactly when its revoke write
  was lost (`TokenRuns.ReusableIffRevokeLost`), and the blacklist refuses it exactly while the store that is asked holds
  its jti (`TokenDefence.BlacklistedIsRefused`). The claims of a token presented at logout are blacklisted without being
  verified, and on Redis the last claim counts: one with a near expiry reopens the token
  (`TokenDefence.UnverifiedClaimReopens`).
- A one-time code is accepted as often as verifications of it overlap (`CodeRaces.AcceptedAtMostIff`).
- A logout without a bulk step can count a token although no row turned (`TokenRuns.SingleLogoutCount`).
- The limits on failures and codes hold as written exactly when calls for a target or address come one at a time
  (`LoginRuns.WrittenLimitHoldsIffOneAtATime`, `SendLimits.WrittenLimitHoldsIffOneAtATime`); with cleanup the limits on
  codes hold exactly for windows up to the life of a code (`SendLimits.WrittenLimitSurvivesCleanupIff`). README.md:342
  promises 60 seconds between codes; nothing enforces them (`SendLimits.NoMinimumDistance`).
- A meeting event without a sub meeting id lands on a sub meeting's row exactly when the first step that wrote the
  meeting carried that sub meeting's id (`ParticipantLists.PlainLandsOnSubIff`, with a run in
  `PlainEventJoinsSubMeeting`). Nobody is lost from a list exactly when events of one meeting do not overlap
  (`ParticipantRaces.NobodyIsLostIff`).
- No index keeps platform users unique. A person gets as many rows as upserts of them overlap
  (`UserRaces.RowsAtMostIff`), so users are unique exactly when upserts of one person never do
  (`UserRaces.UsersAreUniqueIff`); one started event is enough (`UserRaces.StartedEventCanDuplicate`).

## Model

| member | source | states |
|---|---|---|
| TableOrder.DepthFirst.Visit | prisma/seed.ts:205-220 | The nested visit with its shared set and list ends on every graph, cycles and self edges included, and leaves the set, the list and nothing else as the recursive specification says |
| TableOrder.VisitKeeps | prisma/seed.ts:205-220 | A visit keeps the finished list in postorder (each listed dependency earlier, unless it reaches the table back) while tables on the stack are unfinished, loses nothing visited or finished, and finishes exactly what it newly visits |
| TableOrder.TopologicalSort | prisma/seed.ts:198-228 | Every listed table once and nothing else; t before d for each edge between distinct listed tables whose target cannot reach t back; the first listed table before everything it reaches |
| TableOrder.PushKeepsPostOrder | prisma/seed.ts:218-219 | Finishing a table keeps the postorder although tables on the stack are still unfinished |
| TableOrder.ReversedIsDeletionOrder | prisma/seed.ts:227 | Any reversed postorder of the listed tables is a deletion order |
| TableOrder.EdgeAlwaysOrderedIffNoWayBack | prisma/seed.ts:192-197 | The comment promises that referring tables always come first; for an edge between two tables that holds in every listing of the same tables exactly when there is no way back |
| TableOrder.Graph.ClosedUnderReach | prisma/seed.ts:211-215 | What a set closed under edges contains, it contains with everything reachable through listed tables |
| TableOrder.AnalyzeTableDependencies | prisma/seed.ts:153-190 | The map built by the loop: per referring table the targets of its foreign keys in query order, repetitions kept |
| TableOrder.EdgeIffForeignKey | prisma/seed.ts:176-182 | An edge of the resulting graph is exactly a foreign key between two listed tables |
| DatabaseCleaning.CleanDatabase | prisma/seed.ts:236-276 | The rows left are those of clearing table after table in a deletion order; references stay intact, every table that no cycle leads to ends empty, with an acyclic schema the counter reaches the total, and a full counter means an empty database |
| DatabaseCleaning.AlwaysEmptiedIffNoCycleAbove | prisma/seed.ts:236-276 | A table ends empty from every content that fits the schema exactly when no cycle leads to it, also when all tables have models |
| DatabaseCleaning.AlwaysEmptiedIffAcyclic | prisma/seed.ts:236-276 | Every content of a schema is cleared exactly when the schema has no cycle through distinct tables, also when all tables have models |
| PartlyModelled.EmptiedWithIff | prisma/seed.ts:251-294 | For a fixed set of modelled tables and any order, a table ends empty from every content exactly when a truncation of a table it reaches comes by, or one of its own turns cannot be refused: no table that refers to it can still hold rows by then |
| PartlyModelled.OnlySurvivorsHoldRows | prisma/seed.ts:259-294 | After any number of turns, from any content, rows are left only where no such truncation has come by and every own turn could be refused |
| PartlyModelled.SurvivorsHoldRows | prisma/seed.ts:259-294 | And there is one content, a row per table, that leaves rows in all of those |
| DatabaseCleaning.CycleKeepsRow | prisma/seed.ts:251-267 | With one row per table that references the row of each dependency, every table a cycle leads to keeps its row, whatever the order of the deletions |
| DatabaseCleaning.KnotsStay | prisma/seed.ts:284-286 | Rows that hold each other survive deletions through the models in any order |
| DatabaseCleaning.ClearNext | prisma/seed.ts:259-267 | One turn of the clearing loop, a refusal caught: the rows are those of one more clearing, and a table that no cycle leads to is never refused |
| DatabaseCleaning.ReadyToClear | prisma/seed.ts:251-259 | When a table that no cycle leads to gets its turn, every other table that references it stands earlier and is already empty |
| DatabaseCleaning.ReferrersComeFirst | prisma/seed.ts:251-252 | What references such a table is itself such a table and comes before it in any deletion order |
| DatabaseCleaning.Database.CleanupTableData | prisma/seed.ts:282-294 | Through a model the deletion succeeds exactly when no other table points at the table's rows; raw TRUNCATE CASCADE always empties it; references stay intact either way |
| DatabaseCleaning.Database.TruncateCascade | prisma/seed.ts:290-292 | The cascade empties the table and only tables that reach it |
| DatabaseCleaning.EmptyingKeepsReferences | prisma/seed.ts:286-292 | Emptying tables that nothing outside points at leaves every remaining reference resolved |
| Bitable.BuildSearchFilter | src/integrations/lark/services/bitable.service.ts:691-748 | A filter results exactly when some match field carries a value; its conditions name those fields, ask with `contains` in a partial search and `is` otherwise, for the printed value in its own case or in small letters, joined by `or` in the third mode only |
| Bitable.SearchAccepts | src/integrations/lark/services/bitable.service.ts:699-748 | In every mode: a record is found exactly when each match field that carries a value is there and the same text but for case, or contains it in a partial search; one of them is enough in the third mode |
| Bitable.PartialFindsMore | src/integrations/lark/services/bitable.service.ts:722-730 | A partial search finds whatever an exact one for the same fields finds |
| Bitable.PrintsTellApart | src/integrations/lark/services/bitable.service.ts:705-713 | Two values of one kind are printed alike only if they are the same |
| Bitable.ConditionsAreMatchFields | src/integrations/lark/services/bitable.service.ts:699-738 | The conditions are exactly those of the match fields with a value, with the operator and casing of the mode |
| Bitable.ExactSearchFindsKey | src/integrations/lark/services/bitable.service.ts:705-729 | An exact search accepts just the records with the same case-folded key, whatever caseSensitive says |
| Bitable.RemoteTable.UpsertRecord | src/integrations/lark/services/bitable.service.ts:503-579 | The method's search, update and create calls have the effect and the reply of the specification, the missing-reply paths and the error included |
| Bitable.UpsertByKey | src/integrations/lark/services/bitable.service.ts:512-559 | In keyed exact mode the first record with the key is overlaid, or one is appended |
| Bitable.UpsertFirstAccepted | src/integrations/lark/services/bitable.service.ts:503-579 | In every mode, partial included, the first record the search accepts is overlaid, or one is appended |
| Bitable.UpsertKeys | src/integrations/lark/services/bitable.service.ts:503-579 | An exact upsert keeps every record's key in place and adds at most the key it was sent |
| Bitable.UpsertKeepsKeysUnique | src/integrations/lark/services/bitable.service.ts:546-559 | At most one record per key is kept exactly when the update reply carries its record or the key was absent |
| Bitable.RunKeepsKeysUnique | src/integrations/lark/services/bitable.service.ts:471-579 | After any sequence of exact keyed upserts on an empty table there is one record for every key sent and no other |
| Bitable.UpsertTwiceIsOnce | src/integrations/lark/services/bitable.service.ts:471-579 | Sending the same fields again finds the record just written and changes nothing |
| Bitable.UpsertWrites | src/integrations/lark/services/bitable.service.ts:519-570 | A reported update wrote every value sent and not excluded to one record and touched nothing else, with or without mergeFields; a reported creation only appended one record with the values sent |
| Bitable.MergeMakesNoDifference | src/integrations/lark/services/bitable.service.ts:531-537 | When nothing comes between search and update, mergeFields true or false leaves the same record under overlay updates |
| Bitable.WriteKeepsKey | src/integrations/lark/services/bitable.service.ts:522-544 | Neither updating nor creating under a key changes the key, excluded fields or not |
| BitableChunks.BatchUpsertRecords | src/integrations/lark/services/bitable.service.ts:652-684 | For any requests, whatever way the remote calls of each chunk interleave: it succeeds exactly when every request has a usable condition, then all have finished and result k is that of request k with index k; it fails with the chunks before that of the first unusable request served, the later ones not started and that chunk anywhere, since its other calls are not waited for |
| BitableChunks.BatchAgrees | src/integrations/lark/services/bitable.service.ts:652-684 | When no two requests meet, in any matching mode, the table and the results of a successful batch are those of upserting one by one, up to the ids given out, for every batch size |
| BitableSequels.ChunkedBatchAgrees | src/integrations/lark/services/bitable.service.ts:652-684 | So they are for keyed exact requests that share keys across chunks but not inside one: the later chunk finds what the earlier one wrote |
| BitableBatch.BatchAgreesWithOneByOne | src/integrations/lark/services/bitable.service.ts:653-679 | When no search of a request accepts what another one is about or leaves behind, in whatever matching mode: any schedule of search and write steps that finishes the call leaves the same records under a renaming of new ids, and gives each request the same action on the same record, as the one-by-one form |
| BitableBatch.DistinctKeysAreAdmissible | src/integrations/lark/services/bitable.service.ts:652-684 | Keyed requests under one exact query whose case-folded keys differ pairwise do not meet in that sense |
| BitableBatch.ApartCallsAreAdmissible | src/integrations/lark/services/bitable.service.ts:705-729 | Nor do requests under any exact queries that differ pairwise, beyond case, in a field both match on |
| BitableBatch.EveryScheduleIsConsistent | src/integrations/lark/services/bitable.service.ts:655-679 | Every reachable world of a call has one closed form in which only the order of creation is open |
| BitableBatch.StepKeepsConsistent | src/integrations/lark/services/bitable.service.ts:657-664 | Any request may take the next remote call without leaving that form |
| BitableBatch.SearchUndisturbed | src/integrations/lark/services/bitable.service.ts:513-521 | The search of a request that has not written yet answers as it would have before the call |
| BitableBatch.ApartDoNotMeet | src/integrations/lark/services/bitable.service.ts:513-521 | Whatever an exact request is about or leaves behind is invisible to the search of one that differs from it in a common match field |
| BitableBatch.FinishedRunsAgree | src/integrations/lark/services/bitable.service.ts:679-684 | Two finished runs of the same call hold the same records and gave the same replies, up to the ids given out |
| BitableBatch.TwoStepsAreOneUpsert | src/integrations/lark/services/bitable.service.ts:503-579 | The search step and the write step of one request, back to back, are the upsert |
| BitableRaces.CountAgreesIffNewKeysDiffer | src/integrations/lark/services/bitable.service.ts:653-679 | For any number of keyed requests in one chunk: every interleaving ends with the one-by-one number of records exactly when no two of them share a key that is not in the table |
| BitableOverlaps.ContentsAgreeIffCompatible | src/integrations/lark/services/bitable.service.ts:522-544 | For any number of keyed requests in one chunk: every interleaving leaves the records that were in the table as upserting one by one does exactly when no two requests for one of them send different values for a field and, with mergeFields, none sends a new value for a field that another one writes back from its search |
| BitableOverlaps.EveryScheduleHoldsPuts | src/integrations/lark/services/bitable.service.ts:519-544 | Under that condition, in every reachable world each old record holds the values sent by its finished requests and otherwise what it held before; no search has seen anything else |
| BitableOverlaps.EarlyBringsBack | src/integrations/lark/services/bitable.service.ts:531-537 | With mergeFields, a request that searches first and writes last brings back every field it does not send itself to what the record held before the call |
| BitableRaces.AtMostOneRecordPerNewRequest | src/integrations/lark/services/bitable.service.ts:655-679 | No interleaving leaves more than one record per request with a new key, and some interleaving leaves that many |
| BitableRaces.OneByOneCount | src/integrations/lark/services/bitable.service.ts:503-579 | One by one, a record is added for each new key once; that is fewer than the requests with new keys exactly when two of them share one |
| BitableRaces.SearchingFirstCount | src/integrations/lark/services/bitable.service.ts:655-679 | When all requests search before any writes, every request with a new key creates a record |
| BitableRaces.EveryScheduleIsKeyed | src/integrations/lark/services/bitable.service.ts:655-679 | In every reachable world, whatever the interleaving: one record more per creating request, and only requests with new keys create |
| BitableSequels.EveryChunkedScheduleIsOrderly | src/integrations/lark/services/bitable.service.ts:652-681 | Whatever the order of calls inside the chunks, every record holds what the requests for its key that have written left there in the order of the requests |
| BitableChunks.RunChunk | src/integrations/lark/services/bitable.service.ts:655-679 | However its remote calls interleave, a chunk is waited for to the end, or given up at any moment after one of its requests is rejected; requests of other chunks are left alone |
| RefreshTokens.TokenStore.CreateRefreshToken | src/auth/repositories/refresh-token.repository.ts:24-41 | A row is added exactly when the write goes through and both jti and token hash are new |
| RefreshTokens.TokenStore.RevokeOne | src/auth/repositories/refresh-token.repository.ts:65-107 | Exactly the addressed row is stamped; no such row or a lost write is reported as none |
| RefreshTokens.TokenStore.RevokeMany | src/auth/repositories/refresh-token.repository.ts:112-174 | Exactly the selected unrevoked rows are stamped, and the count is what the unrevoked rows lost |
| RefreshTokens.BulkRevokeConservesLive | src/auth/repositories/refresh-token.repository.ts:119-131 | Unrevoked rows before equal those after plus the reported count |
| RefreshTokens.RevokingIsMonotone | src/auth/repositories/refresh-token.repository.ts:74-101 | Revoking un-revokes nothing, touches only what it selects and changes only revokedAt and replacedBy |
| TokenRotation.TokenService.GenerateTokens | src/auth/services/token.service.ts:77-130 | An access token and a refresh token are handed out exactly when both could be signed with their configured lifetimes and the row was stored; the row expires after the refresh lifetime, or after seven days if that text cannot be parsed here |
| TokenContexts.IssuedRow | src/auth/services/token.service.ts:95-120 | Every column of the row that issuing adds, its life in milliseconds included; no other row changes |
| Duration.UnitsInWords | src/auth/services/token.service.ts:58-72 | The units ms, s, m, h, d and w with their milliseconds, and that there are no others |
| Duration.PrintedDurationReads | src/auth/services/token.service.ts:58-72 | A number with a unit, in any case and with white space around, stands for that many units; without a unit for seconds |
| Duration.AcceptedIsDigitsAndUnit | src/auth/services/token.service.ts:58-72 | Only such texts are accepted, and they stand for their number times their unit |
| TokenRotation.TokenService.RefreshToken | src/auth/services/token.service.ts:132-251 | The new table, blacklist and answer of a refresh for every outcome of the checks and of every write, a lost revoke write and a blacklist without Redis included |
| TokenContexts.AcceptedIff | src/auth/services/token.service.ts:132-206 | A refresh is accepted exactly when the token is one that was handed out and has not expired, the blacklist does not report it, its row is unrevoked, the user exists, and the successor can be signed and stored |
| TokenContexts.SuccessorRow | src/auth/services/token.service.ts:205-234 | Every column of the successor: device, device id, user agent and address are what the request gives, otherwise what the used row had, otherwise absent; the used row names it unless that write is lost; no other row changes |
| TokenContexts.FamilyKeepsDevice | src/auth/services/token.service.ts:212-216 | Over every run: in a family whose refreshes send no device id, every row carries the device id of the first |
| TokenContexts.LogoutEndsFamily | src/auth/services/token.service.ts:321-326 | A logout of that device then leaves the family no live token |
| TokenRotation.TokenService.LogoutUser | src/auth/services/token.service.ts:256-349 | The new table and blacklist and the whole result of a logout for every option and every write failure |
| TokenContexts.LogoutRows | src/auth/services/token.service.ts:276-326 | Row by row: revoked now exactly when it is the presented token's and that write lands, or live and reached by the bulk step of this user or of this user's device; otherwise as it was |
| TokenContexts.LogoutAnswer | src/auth/services/token.service.ts:263-349 | Every field of the answer in terms of the tokens, the options and the writes that failed |
| TokenContexts.LogoutBlacklists | src/auth/services/token.service.ts:263-309 | Both tokens go to the blacklist by what they claim, the refresh token also when it does not verify |
| TokenRuns.NextKeeps | src/auth/services/token.service.ts:132-349 | No event un-revokes a row, changes its identity, owner or token, or rewrites a replacedBy link; exchanges stay linked while revoke writes succeed |
| TokenRuns.RunKeeps | src/auth/services/token.service.ts:77-349 | Over every run from the empty table: links lead to later rows of the same user and only revoked rows carry one |
| TokenRuns.RefreshKeeps | src/auth/services/token.service.ts:227-234 | The invariants survive a refresh; every exchange stays recorded on the old row exactly when the revoke write is not lost |
| TokenRuns.RunAdvances | src/auth/repositories/refresh-token.repository.ts:65-107 | Between any two points of a run rows only gain a revocation and a link that is then fixed |
| TokenRuns.FamilyIsOneChain | src/auth/services/token.service.ts:227-231 | Of two tokens of one rotation family the older reaches the newer by following replacedBy |
| TokenRuns.ChainsAreAcyclic | src/auth/services/token.service.ts:227-231 | Each link leads to a strictly later row of the same user |
| TokenRuns.OneLiveTokenPerFamily | src/auth/services/token.service.ts:132-251 | In every reachable state a rotation family has one owner and at most one unrevoked token, when revoke writes succeed |
| TokenRuns.NoTokenIsAcceptedTwice | src/auth/services/token.service.ts:149-162 | In one run no jti is exchanged twice, if the revoke write of the first exchange succeeded |
| TokenRuns.ReusableIffRevokeLost | src/auth/services/token.service.ts:149-234 | Right after its exchange a token passes the checks again exactly when the revoke write was lost, the blacklist does not report it and the remaining checks pass |
| TokenDefence.BlacklistedIsRefused | src/auth/services/token.service.ts:149-156 | After any run of issuing, refreshes, logouts and timers, a refresh that passes all other checks is refused exactly when the store it asks holds the jti: on Redis, when the last token blacklisted there under the jti, verified or not, claims an expiry still to come; in memory, when moreover no timer of the jti has run since |
| TokenDefence.UnverifiedClaimReopens | src/auth/services/token.service.ts:295-309 | A run in which a logout presents a token that was never signed here, with the jti of an exchanged one and a near expiry, and the token is exchanged again, asked in the same store, 98 seconds before its expiry |
| TokenDefence.ReuseNeedsBothToFail | src/auth/services/token.service.ts:227-244 | A token is exchanged twice in a run only if its revoke write was lost and the store that is asked does not hold its jti at that moment |
| TokenDefence.ReuseOnRedisNeedsAnotherClaim | src/auth/services/token.service.ts:227-244 | If both times Redis was in use and the token had a second to live, another blacklisting of the same jti in between has claimed an expiry that has passed |
| RefreshRaces.BeginThenCommitIsRefresh | src/auth/services/token.service.ts:132-251 | The check half and the write half of a refresh, back to back, are the refresh of the service |
| RefreshRaces.ExchangedAtMostIff | src/auth/services/token.service.ts:149-234 | Over all runs in which refreshes, logouts and issuing interleave with at most n refreshes of a token between check and write and revoke writes succeed, no token is exchanged more than b times exactly when n <= b |
| FamilyRaces.FamiliesStaySingleIff | src/auth/services/token.service.ts:149-234 | Over all runs in which refreshes, logouts and issuing interleave, jtis are fresh and revoke writes succeed: every family has one owner and at most one live token exactly when at most one refresh of each token is between check and write |
| FamilyRaces.RunIsOrdered | src/auth/services/token.service.ts:158-234 | With at most one refresh of each token in flight, every exchange stays linked and no token being refreshed has a successor, whatever other tokens and logouts do meanwhile |
| TokenRuns.LogoutEverywhere | src/auth/services/token.service.ts:316-320 | Afterwards the user has no unrevoked row |
| TokenRuns.LogoutOneDevice | src/auth/services/token.service.ts:276-326 | Only the presented row and the device's unrevoked rows change, and they end revoked |
| TokenRuns.LogoutCountConserves | src/auth/services/token.service.ts:316-326 | The reported count is the number of rows the bulk step turned |
| TokenRuns.SingleLogoutCount | src/auth/services/token.service.ts:276-329 | Without a bulk step the reported count is right exactly when nothing was reported or a row that was still live was reached |
| TokenBlacklist.TokenBlacklistService.AddToken | src/auth/services/token-blacklist.service.ts:44-77 | What is stored where and until when, and when the answer is added, for every claim that is missing, empty or expired and for a failing Redis |
| TokenBlacklist.AddIsOneEntry | src/auth/services/token-blacklist.service.ts:44-77 | With a jti and an expiry to come, one entry is written to one store and nothing else changes: on Redis for the whole seconds left, at least one; in memory until the expiry, with a timer for it |
| TokenBlacklist.LookupDropsStale | src/auth/services/token-blacklist.service.ts:89-101 | A lookup in memory leaves the entry exactly when it reports it; a lookup on Redis changes nothing |
| TokenBlacklist.TokenBlacklistService.IsTokenBlacklisted | src/auth/services/token-blacklist.service.ts:80-102 | The answer from Redis or from memory, and that only a stale in-memory entry is dropped |
| TokenBlacklist.TokenBlacklistService.FireTimer | src/auth/services/token-blacklist.service.ts:68-74 | A timer that is due deletes its key from the local map, whoever's entry that is by then |
| TokenBlacklist.KeysAreDistinct | src/auth/services/token-blacklist.service.ts:39-41 | Different scopes or jtis never share a key |
| TokenBlacklist.RedisReportsIff | src/auth/services/token-blacklist.service.ts:60-63 | After any run, Redis reports a key exactly while its last add there holds, whatever earlier adds have claimed |
| TokenBlacklist.MemoryReportsIff | src/auth/services/token-blacklist.service.ts:68-102 | After any run, memory reports a key exactly while its last add there has not expired and no timer of the key, whoever set it, has run since |
| TokenBlacklist.MemorySurelyReportsIff | src/auth/services/token-blacklist.service.ts:68-74 | However the timers run, memory reports a key exactly when it was added there and no add under it, earlier or later, names an expiry that is due or a delay beyond the range of a timer |
| TokenBlacklist.AddedIsReported | src/auth/services/token-blacklist.service.ts:44-102 | An added token is reported by the store that took it up to a second before its expiry on Redis, unless a later add under its key claims an earlier expiry, and in memory as long as no timer of its key is due |
| TokenBlacklist.NothingOutlivesExpiry | src/auth/services/token-blacklist.service.ts:57-75 | After any run nothing is reported a second or more after the expiry its last add has named, nor at all after it in memory |
| TokenBlacklist.OtherStoreDoesNotKnow | src/auth/services/token-blacklist.service.ts:63-76 | Adding to one store never changes what the other one reports |
| TokenBlacklist.LongTimersFireAtOnce | src/auth/services/token-blacklist.service.ts:72-74 | With a delay beyond 2^31-1 ms the in-memory entry may be gone after one millisecond |
| RateLimit.StepKeepsInv | src/auth/services/auth-policy.service.ts:12-35 | Rows of a window that can still grow plus calls between check and write never exceed limit - 1 + in-flight calls, whatever the next move |
| RateLimit.BoundIsExact | src/auth/services/auth-policy.service.ts:12-35 | For windows up to the checked one, the bounds that every run keeps are exactly those from limit - 1 plus the calls in flight |
| RateLimit.BoundHoldsIffWindowFits | src/auth/services/auth-policy.service.ts:12-35 | That bound holds for windows of a length exactly when the length is at most the checked one |
| LoginPolicy.AuthPolicyService.CheckLoginLockout | src/auth/services/auth-policy.service.ts:12-35 | Locked for the target exactly when at least 5 rows of it, and otherwise for the address when at least 10 rows of it, are failures of the last 900000 milliseconds |
| LoginPolicy.LoginService.Login | src/auth/services/login.service.ts:29-119 | Past the lockout: logged in exactly when the user exists, the secret asked for is right, the last login is updated, the success row is written and tokens are issued; a success row exactly when all but the last hold; a refusal names the first check that failed; these rows are appended and no others, a success row followed by a failure row and a lost log row included |
| LoginPolicy.LoginInWords | src/auth/services/login.service.ts:53-118 | That answer and those rows for every combination of what lookup, secret, writes and token issue answer |
| LoginPolicy.FailuresAreRows | src/auth/repositories/login-log.repository.ts:9-22 | What is counted is the number of rows for the key that failed since, the first instant included |
| LoginRuns.FailuresAreCounted | src/auth/repositories/login-log.repository.ts:9-22 | What the check counts is the number of failures in the closed window |
| LoginRuns.RunIsLimited | src/auth/services/login.service.ts:42-118 | What one target or address sees of a run of interleaved logins is a run of the limiter |
| LoginRuns.LimiterIsRealised | src/auth/services/login.service.ts:38-118 | Whatever the limiter can do, logins can do for any address and any target that is not empty |
| LoginRuns.LoginFailuresAreBounded | src/auth/services/login.service.ts:38-118 | With at most n logins of a target or address in flight, a closed window of up to 15 minutes holds at most 4+n failures of the target, or 9+n of the address; no smaller bound holds for any such window, and this one for no longer window; an empty target has none |
| LoginRuns.WrittenLimitHoldsIffOneAtATime | src/auth/services/auth-policy.service.ts:22-34 | 5 failures per target and 10 per address in 15 minutes are bounds exactly when logins of that target or address come one at a time |
| LoginRuns.LoginIsARun | src/auth/services/login.service.ts:42-118 | The events of one login, uninterrupted, append what the login service appends |
| LoginRuns.AttemptFailsAtMostOnce | src/auth/services/login.service.ts:105-117 | A login that passed the check writes one failure row for its target unless it succeeds or the row is lost |
| Verification.VerificationService.SendCode | src/verification/verification.service.ts:26-68 | For every target, valid or not, and every outcome: the answer, the code row appended (also when delivery fails), and the send counter |
| Verification.CheckInWords | src/verification/verification.service.ts:94-117 | Too often for the target exactly when 5 rows of it, and otherwise for the address when 20 rows of it, were created within the hour or the day |
| Verification.CountsAreRows | src/verification/repositories/verification.repository.ts:55-71 | What is counted is the number of rows for the key created since, the first instant included |
| Validators.EmailIsThreeParts | src/common/utils/validators.ts:4-7 | A mail address is a name, an at sign, a host, a dot and a last part, none empty and none with white space or another at sign |
| Validators.PhoneIsElevenDigits | src/common/utils/validators.ts:12-15 | The decimal text of a number is a phone number exactly when the number has eleven digits |
| Validators.PhoneIsDecimal | src/common/utils/validators.ts:12-15 | Every phone number is the decimal text of a number |
| Verification.VerificationService.VerifyCode | src/verification/verification.service.ts:70-88 | The answer is whether an acceptable row exists; the newest one is marked used |
| Verification.VerificationService.CleanExpiredCodes | src/verification/verification.service.ts:90-92 | Exactly the rows expired before now go, and their number is returned |
| Verification.VerificationStore.UpsertSendLimit | src/verification/repositories/verification.repository.ts:73-89 | The counter of the pair goes up by one from zero and its instant is now, other pairs stay |
| Verification.CounterIsSends | src/verification/repositories/verification.repository.ts:73-89 | Over a run the counter of a pair is the number of its sends, and there is one exactly when there was a send |
| Verification.LastSentIsLast | src/verification/repositories/verification.repository.ts:73-89 | Its instant is that of the last of them |
| Verification.FindValid | src/verification/repositories/verification.repository.ts:24-39 | The found row is acceptable and no acceptable row is newer; none means none is acceptable |
| Verification.KeptTwice | src/verification/repositories/verification.repository.ts:48-53 | Two cleanups are the later one |
| SendLimits.RunIsLimited | src/verification/verification.service.ts:94-117 | What one target or address sees of a run of interleaved sends, cleanup included, is a run of the limiter |
| SendLimits.LimiterIsRealised | src/verification/verification.service.ts:31-117 | Whatever the limiter can do, sends can do for any valid target and, with valid targets only, for any address, with a cleanup before every check or with none |
| SendLimits.CodesAreBounded | src/verification/verification.service.ts:31-117 | Without cleanup and with at most n sends of a target or address in flight: 4+n codes per valid target in any hour and 19+n per address in any day; no smaller bound holds, and these for no longer window; a target that is neither mail nor phone gets none |
| SendLimits.CodesAreBoundedUnderCleanup | src/verification/verification.service.ts:31-117 | With cleanup at any time the same bounds, for valid targets and addresses, hold and are exact for windows of up to five minutes, and for no longer window |
| SendLimits.WrittenLimitSurvivesCleanupIff | src/verification/verification.service.ts:90-117 | With cleanup, the limits as written hold for windows of a length, one send at a time, exactly when the length is at most the five minutes a code lives, or the target gets no codes at all |
| SendLimits.WrittenLimitHoldsIffOneAtATime | src/verification/verification.service.ts:94-117 | Without cleanup, 5 codes per valid target and hour and 20 per address and day are bounds exactly when sends come one at a time |
| SendLimits.NoMinimumDistance | README.md:342 | The 60 seconds between codes promised there are not enforced: for every valid target even a single instant can hold five codes |
| SendLimits.CountCoversWindow | src/verification/repositories/verification.repository.ts:48-62 | What the check counts after a cleanup is at least what was sent within the code lifetime |
| OneTimeCodes.CleanupIsInvisible | src/verification/verification.service.ts:70-92 | Leaving out every cleanup changes no answer of any verification in the run |
| OneTimeCodes.CleanedRunIsCut | src/verification/repositories/verification.repository.ts:48-53 | With cleanup the table is what its last cut-off leaves of the table without |
| OneTimeCodes.AcceptedWasSent | src/verification/verification.service.ts:37-49 | What is accepted was sent to that target with that code and type, less than five minutes before |
| OneTimeCodes.AcceptedIffSent | src/verification/verification.service.ts:70-88 | Over every run, cleanup or not: a verification succeeds exactly when the code was sent to that target, for that purpose, less than five minutes before, and has not been accepted since; it uses up the newest such code |
| OneTimeCodes.AcceptedOnce | src/verification/verification.service.ts:86-87 | No code row is accepted twice in a run of uninterrupted verifications |
| CodeRaces.AcceptedAtMostIff | src/verification/verification.service.ts:70-88 | Over all runs in which verifications, sends and cleanups interleave with at most n verifications of a code row between find and mark, no row is accepted more than b times exactly when n <= b |
| Transcript.TranscriptFormatterService.FormatTranscript | src/hook-tencent-mtg/services/transcript-formatter.service.ts:40-85 | The text is the joined lines of the paragraphs that have a sentence |
| Transcript.TranscriptService.ExtractUniqueUsernames | src/hook-tencent-mtg/services/transcript.service.ts:104-120 | Every speaker once, in order of first appearance |
| Transcript.SplitGivesLinesBack | src/hook-tencent-mtg/services/transcript.service.ts:73-75 | Splitting on blank lines gives the printed lines back exactly when no printed speaker name or paragraph text contains a blank-line break |
| Transcript.SplitJoin | src/hook-tencent-mtg/services/transcript.service.ts:73-75 | Split undoes join for lines without a break that do not end in a newline |
| Transcript.LineCountIsSpoken | src/hook-tencent-mtg/services/transcript.service.ts:73-75 | The logged number of lines is the number of paragraphs with a sentence |
| Transcript.OneLinePerSpokenParagraph | src/hook-tencent-mtg/services/transcript-formatter.service.ts:55-77 | One line per paragraph that has a sentence, even if its text is empty |
| Transcript.LineReadsBack | src/hook-tencent-mtg/services/transcript-formatter.service.ts:75 | A line parses back to its speaker, whole seconds and text |
| Transcript.PrintedParagraph | src/hook-tencent-mtg/services/transcript-formatter.service.ts:55-77 | The line of a paragraph reads back as its name, or the fixed one when there is none, the second of its first sentence, and all its words in order without the white space at the ends |
| Transcript.TimestampShape | src/hook-tencent-mtg/services/transcript-formatter.service.ts:92-100 | Hours, minutes and seconds with at least two digits, minutes and seconds with two and below sixty |
| Transcript.SecondsOfTimestamp | src/hook-tencent-mtg/services/transcript-formatter.service.ts:92-100 | The printed time stands for floor(ms/1000) seconds, also from 100 hours on |
| Transcript.TranscriptRoundTrip | src/hook-tencent-mtg/services/transcript-formatter.service.ts:40-85 | Parsing the split transcript gives speaker, seconds and trimmed text of every paragraph that has a sentence |
| TextAnalysis.CountWordsIsRuns | src/meeting/utils/text-analysis.util.ts:52-62 | The word count is the number of maximal runs of non-white-space characters |
| TextAnalysis.CountsAreAdditive | src/meeting/utils/text-analysis.util.ts:52-75 | Words and characters add up over texts joined by white space |
| TextAnalysis.CharactersAddUp | src/meeting/utils/text-analysis.util.ts:69-75 | The character count is additive over any two texts; a single character counts its UTF-16 units, white space nothing |
| TextAnalysis.CleanTextIsIdempotent | src/meeting/utils/text-analysis.util.ts:140-149 | Cleaning twice is cleaning once |
| TextAnalysis.SecondReplaceIsIdle | src/meeting/utils/text-analysis.util.ts:145-148 | The second replacement never changes anything |
| TextAnalysis.CleanTextKeepsCounts | src/meeting/utils/text-analysis.util.ts:140-149 | Cleaning keeps both counts and every character that is no white space, in order |
| TextAnalysis.CleanedIsClean | src/meeting/utils/text-analysis.util.ts:140-149 | A cleaned text has single blanks only, none at either end |
| TextWords.EnglishWordsAreRead | src/meeting/utils/text-analysis.util.ts:243 | The English words are, in order, exactly the slices that are maximal runs of word characters and consist of three or more small letters |
| TextWords.ChineseWordsAreRead | src/meeting/utils/text-analysis.util.ts:181 | The Chinese words are disjoint slices of two to eight Chinese characters, each as long as it can be and starting where its run or the rest of a cut run starts, and no two neighbouring Chinese characters are both left unread |
| TextWords.OnlyChineseReading | src/meeting/utils/text-analysis.util.ts:181 | There is only one such reading |
| TextWords.OnlyOneReading | src/meeting/utils/text-analysis.util.ts:157-171 | For every text exactly one list of words fits the description of the branch taken: a Chinese character among at most three UTF-16 units, or not; stop words left out of the English ones |
| TextWords.BlankHasNoWords | src/meeting/utils/text-analysis.util.ts:158-160 | A text of white space has no words |
| Keywords.CountFrequencies | src/meeting/utils/text-analysis.util.ts:182-186 | The counting loop, with or without stop words: every counted word, in order of first occurrence, with its number of occurrences |
| Keywords.ExtractKeywords | src/meeting/utils/text-analysis.util.ts:157-171 | For any text: distinct words among the slices described above, at most max of them, as many as there are below max, and unless constructor is among those slices the most frequent ones in falling frequency, equally frequent ones in the order in which they first occur |
| Keywords.TopWordsAreTheMostFrequent | src/meeting/utils/text-analysis.util.ts:188-191 | At most max distinct words; a word stands before another, or is kept instead of it, exactly by being more frequent, or as frequent and first in the text |
| Keywords.SortIsFallingPermutation | src/meeting/utils/text-analysis.util.ts:189 | The sort is a permutation in falling frequency |
| Keywords.SortIsStable | src/meeting/utils/text-analysis.util.ts:189 | Equally frequent entries keep their order |
| Common.OccurrencesAreMultiplicity | src/meeting/utils/text-analysis.util.ts:184-186 | What is counted is how often the word stands in the list |
| Keywords.CosineIsOverlap | src/meeting/utils/text-analysis.util.ts:273-287 | The three sums are the sizes of the common and of the single keyword sets |
| Keywords.CalculateSimilarity | src/meeting/utils/text-analysis.util.ts:265-287 | For any two texts: the three sums over the keywords of both, taken from the slices described above; none for a missing text |
| Keywords.SimilarityIsACosine | src/meeting/utils/text-analysis.util.ts:265-294 | Whatever the keywords are and with exact square roots: symmetric, between 0 and 1, 0 exactly when no keyword is shared or a text is missing, 1 exactly for equal non-empty keyword sets |
| Participants.MeetingBitableService.UpdateMeetingParticipants | src/hook-tencent-mtg/services/meeting-bitable.service.ts:139-219 | The whole effect on the user table and the meeting table for every missing reply: users found or written first, the list read, extended, stripped of repetitions and written back |
| Participants.MeetingBitableService.EnsureUserRecord | src/hook-tencent-mtg/services/meeting-bitable.service.ts:158-178 | A user found by uuid is left alone, an unknown one is written; the answer is its record id |
| Participants.MeetingBitableService.UpsertMeetingUserRecord | src/hook-tencent-mtg/services/meeting-bitable.service.ts:33-50 | The user is upserted by uuid; the record id comes back |
| Participants.PushAgainIsIdle | src/hook-tencent-mtg/services/meeting-bitable.service.ts:188-194 | The membership test before the second push saves nothing the Set would not |
| ParticipantSteps.WriteAt | src/integrations/lark/repositories/meeting.repository.ts:158-194 | The search of searchMeetingById and the search inside the upsert stop at the same row |
| ParticipantSteps.ReadAfterWrite | src/integrations/lark/repositories/meeting.repository.ts:103-131 | A write shows in the list read for its own key and in no other of its kind; a write without a list leaves it |
| ParticipantLists.ReadAfterMixedWrite | src/integrations/lark/repositories/meeting.repository.ts:103-131 | A write with or without a sub meeting id shows in every row read for its meeting that means the same sub meeting, also one that had no row, and in no other; the plain id means the sub meeting written first |
| ParticipantSteps.ResolvedIdsAreTheirs | src/hook-tencent-mtg/services/meeting-bitable.service.ts:155-178 | The ids an event uses are those of its operator's and creator's rows and never empty |
| ParticipantSteps.IdStaysOnUpsert | src/integrations/lark/repositories/meeting-user.repository.ts:71-125 | Writing a user's record never changes the id any uuid already stands for |
| ParticipantSteps.EventJoins | src/hook-tencent-mtg/services/meeting-bitable.service.ts:180-194 | After an event the list is the old one followed by whoever it names that was not there |
| ParticipantSteps.EventListsOperatorAndCreator | src/hook-tencent-mtg/services/meeting-bitable.service.ts:180-213 | An event that completes has operator and creator on the meeting's list |
| ParticipantSteps.OperatorJoinsFirst | src/hook-tencent-mtg/services/meeting-bitable.service.ts:184-197 | A completed event puts its operator, if it has one, and then its creator at the end of the list unless they are on it |
| ParticipantColumns.EventRow | src/hook-tencent-mtg/services/meeting-bitable.service.ts:197-213 | On the row found by the ids of a completed event: subject, code, type, start and end in milliseconds and platform are the event's, the creator column is the creator's record id alone; what the event leaves empty or zero, or does not tell, is as it was |
| ParticipantColumns.RowIsLatestTold | src/integrations/lark/repositories/meeting.repository.ts:84-131 | Over every run of events, recordings and user writes, each column but the list shows what the latest write to that row that carried a value has told |
| ParticipantColumns.UserRowWritten | src/hook-tencent-mtg/services/meeting-bitable.service.ts:33-50 | A user's own write leaves on the first row with the uuid: uuid, user id and name where given, and whether there is a user id; other columns stay |
| ParticipantLists.ListIsEveryoneWhoArrived | src/hook-tencent-mtg/services/meeting-bitable.service.ts:139-213 | Over every run of any steps, kinds mixed in any way: the list of a meeting is everyone named by the events that mean the same sub meeting, once each, in order of first arrival |
| ParticipantLists.UnmixedListIsByKey | src/hook-tencent-mtg/services/meeting-bitable.service.ts:139-213 | When the events of this meeting id all carry a sub meeting id, or none does, that is everyone named under the two ids, whatever other meetings do |
| ParticipantLists.PlainLandsOnSubIff | src/integrations/lark/repositories/meeting.repository.ts:158-194 | Over every run, an event without a sub meeting id lands on the row of a sub meeting exactly when the first step that wrote the meeting carried that sub meeting id |
| ParticipantLists.PlainEventJoinsSubMeeting | src/integrations/lark/repositories/meeting.repository.ts:112-114 | A run of two events that does so: the creator of the plain event stands on the sub meeting's list |
| ParticipantRaces.NobodyIsLostIff | src/hook-tencent-mtg/services/meeting-bitable.service.ts:139-213 | Over all runs in which events read and write lists at different moments, with user and recording writes in between: no list ever loses or moves anybody exactly when at most one event of each meeting is between read and write |
| ParticipantRaces.RunIsSequential | src/hook-tencent-mtg/services/meeting-bitable.service.ts:139-213 | Then the run ends as if each event had taken place at its write, and whoever is in flight has read what a read would find now |
| ParticipantRaces.ReadThenWriteIsEvent | src/hook-tencent-mtg/services/meeting-bitable.service.ts:139-213 | The two halves of an event, back to back, are the event |
| ParticipantRuns.EventCompletes | src/hook-tencent-mtg/services/meeting-bitable.service.ts:139-219 | An event completes whenever replies to creations carry their record |
| ParticipantRuns.RunGrows | src/hook-tencent-mtg/services/meeting-bitable.service.ts:139-213 | Over every run of user, meeting and recording steps, mixed kinds and missing replies included, each row's list only grows at the end and never holds an empty or repeated id |
| ParticipantRuns.RunKeepsRow | src/integrations/lark/repositories/meeting.repository.ts:158-203 | A meeting with a row is read from that row for ever |
| ParticipantRuns.OnceListedAlwaysListed | src/hook-tencent-mtg/services/meeting-bitable.service.ts:139-213 | Whoever a completed event names keeps their id and stays on that meeting's list after any further steps |
| Sanitizer.SanitizeBody | src/hook-tencent-mtg/interceptors/webhook-logging.interceptor.ts:197-231 | Ends on every JSON tree with the specified value; both loops and the recursion |
| Sanitizer.MaskFields | src/hook-tencent-mtg/interceptors/webhook-logging.interceptor.ts:207-220 | The first loop masks exactly the listed keys that are present |
| Sanitizer.SensitiveKeysAreMasked | src/hook-tencent-mtg/interceptors/webhook-logging.interceptor.ts:216-228 | The first sensitive key on any path holds the mask, and nothing is below it |
| Sanitizer.SecretsByName | src/hook-tencent-mtg/interceptors/webhook-logging.interceptor.ts:207-228 | The fields of the six names hold the mask, every other field what it held, itself sanitized, and there are no others |
| Sanitizer.OpenPathsAreKept | src/hook-tencent-mtg/interceptors/webhook-logging.interceptor.ts:222-228 | On paths without a sensitive key exactly what was there is there, leaves unchanged |
| Sanitizer.LoggedAlikeIffSameButSecrets | src/hook-tencent-mtg/interceptors/webhook-logging.interceptor.ts:197-231 | Two bodies are logged alike exactly when they differ at most below sensitive keys and in arrays versus index-keyed objects |
| Sanitizer.FixedIffMasked | src/hook-tencent-mtg/interceptors/webhook-logging.interceptor.ts:197-231 | A body is left as it is exactly when it has no arrays and every sensitive key already holds the mask |
| Sanitizer.SanitizingTwiceIsOnce | src/hook-tencent-mtg/interceptors/webhook-logging.interceptor.ts:197-231 | Sanitizing is idempotent |
| Sanitizer.ArraysBecomeIndexed | src/hook-tencent-mtg/interceptors/webhook-logging.interceptor.ts:202-204 | An array becomes the object that maps each index to its sanitized element |
| PlatformUsers.PlatformUserRepository.UpsertPlatformUser | src/user-platform/repositories/platform-user.repository.ts:41-82 | Find, then update or create: the new table and the id, `undefined` leaving columns as they are |
| PlatformUsers.TencentMeetingRepository.UpsertMeetingWithPlatformUsers | src/hook-tencent-mtg/repositories/tencent-meeting.repository.ts:51-130 | Creator, host and meeting written in turn, the meeting with the two ids |
| PlatformUsers.MeetingDatabaseService.UpsertMeetingRecord | src/hook-tencent-mtg/services/meeting-database.service.ts:38-76 | A payload's effect: creator and host from the same data, `__ROOT__` for a missing sub meeting id |
| PlatformUsers.MeetingDatabaseService.UpsertPlatformUser | src/hook-tencent-mtg/services/meeting-database.service.ts:82-115 | A person's effect, device data included |
| PlatformUserRuns.RunKeepsInv | src/hook-tencent-mtg/repositories/tencent-meeting.repository.ts:73-175 | Over every sequential run: at most one user per platform and uuid, one row per meeting key, creator and host of each meeting the same existing user; users keep id and identity |
| PlatformUserRuns.UpsertUserKeepsInv | src/user-platform/repositories/platform-user.repository.ts:54-81 | One upsert keeps users unique and answers with the id found afterwards |
| PlatformUserRuns.MeetingIsItsLatestEvent | src/hook-tencent-mtg/services/meeting-database.service.ts:38-76 | After any run from empty a meeting has a row exactly when an event told of it, with the latest event's data and that event's creator as creator and host |
| PlatformRows.RowsAreLatest | src/hook-tencent-mtg/services/meeting-database.service.ts:38-76 | After any run from empty, for every pair of meeting id and sub meeting id, a missing one counting as `__ROOT__`: at most one row, one exactly when an event was about the pair; it shows the latest one's subject, code, type, start and end in milliseconds and duration in seconds, no recording yet, that event's creator as creator and host, and the instant of the first as its creation |
| PlatformRows.TwoEventsShareRowIff | src/hook-tencent-mtg/services/meeting-database.service.ts:47-50 | Two events write the same row exactly when both ids agree in that sense |
| PlatformRows.PersonRow | src/hook-tencent-mtg/services/meeting-database.service.ts:82-115 | Every column of the row of a person seen on their own, known or new; other rows stay |
| PlatformRows.CreatorRow | src/hook-tencent-mtg/repositories/tencent-meeting.repository.ts:73-98 | The same for a meeting's creator, whose device data stays as it was or starts empty |
| UserRaces.RowsAtMostIff | src/user-platform/repositories/platform-user.repository.ts:54-81 | Over all interleavings of upserts with at most n of a person between find and write, nobody ever has more than b rows exactly when n <= b |
| UserRaces.UsersAreUniqueIff | src/user-platform/repositories/platform-user.repository.ts:54-81 | Users are unique in every interleaving with at most n upserts of each person in flight exactly when n <= 1 |
| UserRaces.FindThenWriteIsUpsert | src/user-platform/repositories/platform-user.repository.ts:41-82 | Find and write, back to back, are the upsert of the repository |
| UserRaces.StartedEventCanDuplicate | src/hook-tencent-mtg/handlers/events/meeting-started.handler.ts:42-63 | One started event on an empty table whose operator is its creator, both finds before both writes, leaves that person with two rows |
| PlatformUserRuns.EndedTwiceIsOnce | src/hook-tencent-mtg/handlers/events/meeting-ended.handler.ts:36-63 | An ended event delivered twice changes nothing but timestamps |
| PlatformUserRuns.StartedTwiceIsOnce | src/hook-tencent-mtg/handlers/events/meeting-started.handler.ts:36-65 | A started event delivered twice changes nothing but timestamps, also when operator and creator are the same person with different data |

## Left out

- BitableChunks.BatchUpsertRecords: requires a batch size of at least 1, because with 0 the source's loop never advances; every remote reply is taken to carry its record; error texts are not compared; calls of a chunk still under way when the batch fails may land later.
- BitableBatch.BatchAgreesWithOneByOne: with partial or `or` matching two requests may meet although their values differ; nothing is said about what such requests leave.
- BitableRaces.CountAgreesIffNewKeysDiffer: speaks about keyed requests under one exact query; so does ContentsAgreeIffCompatible, and only about records that were in the table before the call.
- TokenRuns.NoTokenIsAcceptedTwice: refreshes are atomic here; those that overlap are the subject of RefreshRaces.
- RefreshRaces.ExchangedAtMostIff: the reads of a refresh are one step and its writes another; finer interleavings of a single refresh with a logout are not modelled.
- TokenBlacklist.AddedIsReported: a Redis outage between add and lookup and a restart of the process are outside; see OtherStoreDoesNotKnow.
- TokenRotation.TokenService.GenerateTokens: which lifetime texts the JWT library accepts is an input.
- LoginPolicy.LoginService.Login: code verification and password comparison are inputs.
- Verification.VerificationService.SendCode: drawing the code and delivering it are inputs.
- OneTimeCodes.AcceptedOnce: verifications are atomic here; those that overlap are the subject of CodeRaces.
- Transcript.SecondsOfTimestamp: start times are whole non-negative milliseconds.
- Keywords.ExtractKeywords: which words are cut and in which order is left open when `constructor` is counted, since the source counts in a plain object that inherits that name and its sort then compares with no number; only the branch between the two extractors is taken from language detection.
- Keywords.SimilarityIsACosine: the rounding of square roots and of the quotient is not modelled.
- ParticipantLists.ListIsEveryoneWhoArrived: events are handled one after the other here; those that overlap are the subject of ParticipantRaces.
- ParticipantRaces.NobodyIsLostIff: the user calls of an event are taken together with its write, and each remote operation is one step.
- ParticipantRuns.RunGrows: MeetingBitableService.upsertMeetingRecord, whose default empty list would clear a row's list, has no caller and is not a step; phone fields of user records are not modelled.
- PlatformUsers.PlatformUserRepository.UpsertPlatformUser: also stands for the private helper of tencent-meeting.repository.ts:135-175, which is the same operation; columns no event writes are left out.
- PlatformUserRuns.StartedTwiceIsOnce: the two writes of a started event are taken in that order both times; their interleaving is the subject of UserRaces.
- UserRaces.RowsAtMostIff: the meeting and its two users are written by separate upserts there; the meeting's own find and write are not interleaved.
- Sanitizer.SanitizeBody: bodies are JSON trees; values that are not JSON, a key named `__proto__`, response masking and signature masking are not modelled.
- Bitable.BuildSearchFilter: fields given as a Map are not modelled.
- Dropping tables with its confirmation, the seed data and the case conversion of table names.
- Controllers, request validation, configuration, scheduling, pagination, e-mail templates, cryptography and the clients of foreign services.
- Reading-time estimates, summaries and full language detection of the text utilities.
- Finding a user by phone number in login and registration.
