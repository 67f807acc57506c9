# Crux climbing log: a verified model of the board import and the API services

Crux is a climbing log. It has an API with ascent, session, project, wellbeing
and stats services, and shared request schemas and grade tables. Its largest
piece of logic imports a user's history from the Kilter Board vendor:

- log in to the vendor;
- page through the vendor's sync endpoint, moving a cursor per table;
- drop ascents already recorded in a dedup ledger;
- group the rest by calendar date;
- file each date's ascents under a bouldering session, writing a ledger row for every ascent.

This project restates that pipeline and the services around it as pure Dafny functions over one
immutable store value, and proves the properties the code promises.

## Layout

| file | module | what it holds |
|---|---|---|
| `wrappers.dfy` | `Wrappers` | `Option`, `Result` and the failures the services raise |
| `seqs.dfy` | `Seqs` | filter, count, find, group-by, stable insertion sort, paging, max |
| `strings.dfy` | `Strings` | lexicographic order (SQL order on text and `YYYY-MM-DD` dates), decimal text, `split`, `replace`, and `length` and `slice` in UTF-16 code units |
| `enums.dfy` | `Enums` | grade systems, session types, board types |
| `grades.dfy` | `Grades` | the four grade tables, `gradeToNumeric`, `numericToGrade`, bands, colours |
| `kilter_grades.dfy` | `KilterGrades` | the Kilter difficulty thresholds onto the V scale |
| `store.dfy` | `Store` | the rows of every table, the store invariant, cascading deletes |
| `vault.dfy` | `Vault` | hex text and the `iv:tag:ciphertext` credential format |
| `connections.dfy` | `Connections` | the board connection service |
| `kilter_client.dfy` | `KilterClient` | vendor login, the paginated sync loop, the fetch, climb links |
| `board_import.dfy` | `BoardImport` | the import engine: dedup split, grouping, sessions, inserts, ledger |
| `ascents.dfy` | `Ascents` | the ascent service |
| `sessions.dfy` | `Sessions` | the session service: filtered, paged listing, details, edits |
| `projects.dfy` | `Projects` | the project service and project attempts |
| `wellbeing.dfy` | `Wellbeing` | the wellbeing upsert, listing and lookup |
| `stats.dfy` | `Stats` | the summary counters and the progression rows |
| `schemas.dfy` | `Schemas` | the request schemas as predicates over JSON values |
| `expiry.dfy` | `Expiry` | `parseExpiry` |
| `durations.dfy` | `Durations` | `formatDuration` |

### How the model represents the system

- **Store.** The database is one value, `Db`. It holds a sequence of rows per table and a counter
  that hands out fresh ids. An operation that can fail part-way returns `Effect(db, result)`. The
  source runs no transaction, so the writes made before a failure stay visible in `db`.
- **Store invariant.** `Store.Valid` is what the schema's constraints guarantee:
  - every id is below the counter;
  - every foreign key points at a row: an ascent's session, a ledger row's ascent, an attempt's
    project, and, when set, a project's sent ascent and an attempt's session and ascent (the
    location links excepted, below);
  - the three unique indexes hold: one connection per user and board, one ledger row per dedup
    key, one wellbeing log per user and date.
  - the two links to locations, a session's and a project's `locationId`, are not part of it:
    locations are outside the model, so those two foreign keys are not checked.
- **Vendor.** The vendor is two function parameters, one answering the login and one answering the
  n-th sync request.
- **Outside the model.** The clock, the random IV, the AES-GCM primitives and `toISOString` are
  also parameters.
- **Ordering.** `ORDER BY` is a stable sort. The model picks one of the orders SQL allows.

## Model

| member | source | states |
|---|---|---|
| BoardImport.Partition | apps/api/src/services/board-import.service.ts:33-50 | the dedup loop keeps exactly the ascents whose key the ledger lacks, in fetch order, and counts the rest as skipped; skipped plus kept is the number fetched |
| BoardImport.NewAscents | apps/api/src/services/board-import.service.ts:37-50 | an ascent goes on to be imported exactly when it was fetched and its key is not in the ledger as it stood before the run |
| BoardImport.GroupByDate | apps/api/src/services/board-import.service.ts:98-108 | grouping by date yields no repeated date, never an empty group, and holds every new ascent exactly once in total |
| BoardImport.DatePrefixSpec | apps/api/src/services/board-import.service.ts:102 | an ascent's date is the longest prefix of its timestamp at most ten UTF-16 code units long; on text with no character beyond U+FFFF it is the first ten characters |
| BoardImport.GroupByDateSpec | apps/api/src/services/board-import.service.ts:98-108 | the dates are the distinct ten-code-unit date prefixes in first-occurrence order, and each group is exactly its date's ascents in fetch order |
| BoardImport.InItsGroup | apps/api/src/services/board-import.service.ts:98-108 | every new ascent lands in some group |
| BoardImport.CopiesShareGroup | apps/api/src/services/board-import.service.ts:98-108 | two copies of one ascent land in the same group at two positions |
| BoardImport.ClimbNames | apps/api/src/services/board-import.service.ts:27-31 | the climb lookup has exactly the uuids of the fetched climbs as keys |
| BoardImport.ClimbNamesLast | apps/api/src/services/board-import.service.ts:27-31 | a uuid names the last fetched climb listed with it (a later `set` overwrites) |
| BoardImport.StyleOf | apps/api/src/services/board-import.service.ts:159 | the style is `flash` exactly when the bid count is at most 1, else `redpoint` |
| BoardImport.AttemptsOf | apps/api/src/services/board-import.service.ts:160 | attempts are the bid count when it is nonzero, else 1 |
| BoardImport.AscentFields | apps/api/src/services/board-import.service.ts:146-168 | an imported ascent has the flash/redpoint rule and the attempts rule, result `send` on `v_scale`, grade and numeric from the difficulty through the Kilter table (`kilterDifficultyToVGrade`, `kilterDifficultyToNumeric`), sortOrder its position in the date, a name exactly when the catalogue lists the climb, notes exactly when the comment is non-empty, and a link that leads back to its climb |
| BoardImport.InsertOne | apps/api/src/services/board-import.service.ts:152-179 | one ascent is inserted, then its ledger row with the same key pointing at the new ascent id; the ledger insert fails on the unique index exactly when the key is already recorded, and then the ascent stays without a ledger row |
| BoardImport.InsertAscents | apps/api/src/services/board-import.service.ts:146-180 | the insert loop only appends ascents and ledger rows, touches no other table, stops with the unique-index error, and on success adds one ascent and one ledger row per vendor ascent |
| BoardImport.InsertAscentsStep | apps/api/src/services/board-import.service.ts:146-180 | once the first ascent goes in, the loop continues on the rest from the updated store |
| BoardImport.ExpectedCons | apps/api/src/services/board-import.service.ts:146-180 | the rows a non-empty group produces start with the first ascent's ascent row and ledger row |
| BoardImport.InsertAscentsIds | apps/api/src/services/board-import.service.ts:146-180 | a completed loop takes two fresh ids per ascent, one for the ascent and one for its ledger row |
| BoardImport.InsertAscentsRows | apps/api/src/services/board-import.service.ts:146-170 | a completed loop appends exactly one ascent row per vendor ascent, in order |
| BoardImport.InsertAscentsLedger | apps/api/src/services/board-import.service.ts:171-179 | a completed loop appends exactly one ledger row per vendor ascent, in order |
| BoardImport.ExpectedAscentsAt | apps/api/src/services/board-import.service.ts:146-170 | the j-th new ascent row is the row for the j-th vendor ascent with sortOrder `index + j` |
| BoardImport.ExpectedLedgerAt | apps/api/src/services/board-import.service.ts:171-179 | the j-th new ledger row carries the j-th vendor ascent's key |
| BoardImport.ExpectedPairs | apps/api/src/services/board-import.service.ts:152-179 | pairing: the j-th ledger row points at the j-th ascent row and carries that ascent's key |
| BoardImport.IsImportedSnoc | apps/api/src/services/board-import.service.ts:78-96 | the `isImported` query on a ledger with one more row answers yes exactly for that row's key as well |
| BoardImport.IsImportedGrows | apps/api/src/services/board-import.service.ts:78-96 | a key the ledger holds stays held as the ledger grows |
| BoardImport.KeysFreshStep | apps/api/src/db/schema/imported-climbs.ts:15 | taking the first ascent off a group and its ledger row onto the ledger keeps the remaining keys free of the unique index, and back |
| BoardImport.InsertAscentsOkIff | apps/api/src/db/schema/imported-climbs.ts:15 | the insert loop completes exactly when every key of the group is new to the ledger and to the group's other ascents |
| BoardImport.InsertAscentsRecords | apps/api/src/services/board-import.service.ts:171-179 | after a completed loop every ascent of the group has its key in the ledger |
| BoardImport.FindSession | apps/api/src/services/board-import.service.ts:118-126 | the lookup finds a bouldering session of that user and date, and nothing exactly when none exists |
| BoardImport.CreateSessionWithAscents | apps/api/src/services/board-import.service.ts:110-183 | an empty group does nothing and returns null; otherwise the user's bouldering session of that date is reused, or one session `Imported from Kilter Board`, indoors, is opened; the session id is returned on success |
| BoardImport.SessionFor | apps/api/src/services/board-import.service.ts:128-143 | the session the ascents go into exists in the store before the loop |
| BoardImport.CreateSessionLoop | apps/api/src/services/board-import.service.ts:145-182 | a non-empty date's step is the insert loop, with sortOrder from 0, on the store with the session in place |
| BoardImport.CreateSessionRecords | apps/api/src/services/board-import.service.ts:146-180 | a completed step records every ascent of the date in the ledger, and every key was new before the step |
| BoardImport.ImportGroups | apps/api/src/services/board-import.service.ts:55-65 | the loop over dates counts every group's ascents, and one session per group since no group is empty (a reused session is counted too); a failure is the unique-index error |
| BoardImport.AllRecordedGrows | apps/api/src/services/board-import.service.ts:78-96 | ascents recorded in a ledger stay recorded as it grows |
| BoardImport.ImportGroupsRecords | apps/api/src/services/board-import.service.ts:55-65 | after a completed loop every ascent of every date is recorded in the ledger |
| BoardImport.ImportGroupsFresh | apps/api/src/services/board-import.service.ts:55-65 | a completed loop means no date group held two ascents with one key |
| BoardImport.ImportFetched | apps/api/src/services/board-import.service.ts:27-65 | the counters: duplicatesSkipped plus ascentsImported is the number fetched, ascentsImported is the number of new ascents, duplicatesSkipped counts the ledger hits, and sessionsCreated is the number of date groups |
| BoardImport.ImportFetchedSessions | apps/api/src/services/board-import.service.ts:52-65 | sessionsCreated is the number of distinct calendar dates among the new ascents |
| BoardImport.ImportFetchedRecords | apps/api/src/services/board-import.service.ts:37-65 | after a completed run the ledger holds the key of every fetched ascent, skipped or imported |
| BoardImport.ImportFetchedAllKnown | apps/api/src/services/board-import.service.ts:37-65 | a fetch the ledger already holds imports nothing, writes nothing and counts every ascent as skipped |
| BoardImport.ImportFetchedIdempotent | apps/api/src/services/board-import.service.ts:37-65 | re-running a completed import on the same fetch skips all of it, with zero sessions and ascents and no write |
| BoardImport.ImportFetchedDuplicate | apps/api/src/services/board-import.service.ts:37-50 | two copies of one unrecorded vendor record both pass the dedup test, and the second ledger insert fails the run on the unique index |
| BoardImport.InsertOneIds | apps/api/src/services/board-import.service.ts:152-179 | one ascent and its ledger row keep every id below the counter |
| BoardImport.InsertOneLinks | apps/api/src/services/board-import.service.ts:152-179 | one ascent and its ledger row keep every foreign key when the session exists |
| BoardImport.InsertOneValid | apps/api/src/services/board-import.service.ts:152-179 | one ascent and its ledger row keep the store invariant |
| BoardImport.InsertAscentsValid | apps/api/src/services/board-import.service.ts:146-180 | the insert loop keeps the store invariant, also when the unique index stops it |
| BoardImport.SessionForValid | apps/api/src/services/board-import.service.ts:128-143 | finding or opening the date's session keeps the store invariant |
| BoardImport.CreateSessionValid | apps/api/src/services/board-import.service.ts:110-183 | a date's step keeps the store invariant whether it completes or not |
| BoardImport.ImportGroupsValid | apps/api/src/services/board-import.service.ts:55-65 | the loop over dates keeps the store invariant |
| BoardImport.ImportFetchedValid | apps/api/src/services/board-import.service.ts:27-65 | an import from fetched data keeps the store invariant |
| BoardImport.SinceOf | apps/api/src/services/board-import.service.ts:23-24 | the watermark is present exactly when the connection has synced before |
| BoardImport.FetchHistory | apps/api/src/services/board-import.service.ts:15-25 | a missing connection is not found, a 422 login is the invalid-credentials error, and every failure before the first write is one of the lookup, key, decryption, login or sync errors |
| BoardImport.ImportKilterHistory | apps/api/src/services/board-import.service.ts:11-76 | a failure before the first write leaves the store as it was; a failed import does not stamp the connection; a completed one imports exactly the fetched ascents the ledger did not hold, skips exactly those it held, and opens one session per date among the new ones; the ledger is only ever extended |
| BoardImport.ImportKilterHistoryRecords | apps/api/src/services/board-import.service.ts:11-76 | after a completed import the ledger holds the key of every fetched ascent, skipped or imported |
| BoardImport.ImportStampsSync | apps/api/src/services/board-import.service.ts:67-68 | a completed import stamps the sync time on its connection on every run, also one that imported nothing |
| BoardImport.ImportKilterHistoryValid | apps/api/src/services/board-import.service.ts:11-76 | the whole import keeps the store invariant, whatever it ends with |
| KilterClient.Authenticate | apps/api/src/services/kilter.service.ts:57-72 | 422 is invalid credentials, any other non-2xx a failed login with its status; a string session is the token with the body's user id (default 0), an object session carries token and user id (default 0); a 2xx answer succeeds exactly when its session yields a non-empty token, and otherwise fails only for want of one |
| KilterClient.AuthenticateShapes | apps/api/src/services/kilter.service.ts:64-72 | both session shapes log in with a non-empty token, and an empty or absent token fails |
| KilterClient.LastEcho | apps/api/src/services/kilter.service.ts:115-124 | the last usable echo of a table is one of the echoes and carries a non-empty time; there is none exactly when no echo names the table with a time |
| KilterClient.ApplyEchoes | apps/api/src/services/kilter.service.ts:115-124 | applying echoes never adds or drops a table |
| KilterClient.ApplyEchoesLast | apps/api/src/services/kilter.service.ts:115-124 | each cursor ends at its table's last usable echo, or stays where it was |
| KilterClient.Advance | apps/api/src/services/kilter.service.ts:113-125 | advancing the cursors after a page keeps the same tables |
| KilterClient.AdvanceSpec | apps/api/src/services/kilter.service.ts:113-125 | a shared echo wins over a user echo; user echoes count only with a token; without either the cursor stays |
| KilterClient.SyncPages | apps/api/src/services/kilter.service.ts:75-129 | the loop sends at most `maxPages` requests, the first carries the starting cursors, each successful request yields one page, a failure is a non-2xx status with no page, and a run without a failure got a 2xx answer to every request |
| KilterClient.SyncPagesKeys | apps/api/src/services/kilter.service.ts:113-125 | every request of a run names exactly the tables it started with |
| KilterClient.SyncPagesFollows | apps/api/src/services/kilter.service.ts:84-127 | request i+1 carries the cursors advanced by answer i, every answer before the last was a successful incomplete page, and each yielded page comes from a 2xx answer and is that answer's page |
| KilterClient.SyncPagesSucceeds | apps/api/src/services/kilter.service.ts:102-105 | a run ends without a failure exactly when every answer it got was 2xx |
| KilterClient.SyncPagesEndComplete | apps/api/src/services/kilter.service.ts:84-109 | a run that neither failed nor hit the page cap stopped on a page marked `_complete` |
| KilterClient.SyncPagesEndFailure | apps/api/src/services/kilter.service.ts:102-105 | a failed run reports the status of its last answer |
| KilterClient.SinceText | apps/api/src/services/kilter.service.ts:137-139 | with no `since` the watermark is `1970-01-01 00:00:00.000000` |
| KilterClient.SinceTextIso | apps/api/src/services/kilter.service.ts:137-139 | an ISO time `<date>T<time>Z` becomes `<date> <time>` |
| KilterClient.SeedPayload | apps/api/src/services/kilter.service.ts:144 | a fetch asks for `ascents` and `climbs` only, both from the same watermark |
| KilterClient.AllConcat | apps/api/src/services/kilter.service.ts:144-151 | collecting pages distributes over consecutive runs of pages |
| KilterClient.FetchAscentsAndClimbs | apps/api/src/services/kilter.service.ts:136-154 | a fetch fails exactly when a page failed, with its status, and succeeds exactly when every answer of the run was 2xx; otherwise it is the concatenation of every page's ascents and climbs in page order; it sends between 1 and 10 requests, the first from the seeded cursors |
| KilterClient.FetchTablesFixed | apps/api/src/services/kilter.service.ts:113-144 | every request of a fetch asks for exactly `ascents` and `climbs` |
| KilterClient.BuildClimbUrl | apps/api/src/services/kilter.service.ts:156-158 | a climb link is the Kilter climbs prefix followed by the uuid |
| KilterClient.BuildClimbUrlRoundTrip | apps/api/src/services/kilter.service.ts:156-158 | the uuid is read back from its link, so distinct climbs get distinct links |
| Connections.Sanitize | apps/api/src/services/board-connection.service.ts:101-105 | sanitizing keeps the id, user and board type |
| Connections.SanitizeLosesOnlyPassword | apps/api/src/services/board-connection.service.ts:101-105 | sanitizing drops the encrypted password and nothing else |
| Connections.GetByUserAndBoard | apps/api/src/services/board-connection.service.ts:77-82 | the lookup finds the user's connection to that board, and nothing exactly when there is none |
| Connections.GetById | apps/api/src/services/board-connection.service.ts:69-75 | not found exactly when no connection with that id belongs to the user |
| Connections.List | apps/api/src/services/board-connection.service.ts:62-67 | the listing is exactly the user's connections, sanitized, oldest first, each row once per stored row |
| Connections.Create | apps/api/src/services/board-connection.service.ts:39-60 | a second connection to the same board is a conflict and writes nothing; otherwise the row stores the encrypted password, a null board user id when none is given, and the returned record is sanitized |
| Connections.CreateValidAndRecoverable | apps/api/src/services/board-connection.service.ts:39-99 | a create keeps one connection per user and board, and the stored password decrypts back to the one given |
| Connections.Remove | apps/api/src/services/board-connection.service.ts:84-89 | not found unless the user owns that id; otherwise exactly that connection goes |
| Connections.RemoveThenGone | apps/api/src/services/board-connection.service.ts:84-89 | after a removal the connection is not found and the store invariant holds |
| Connections.UpdateLastSync | apps/api/src/services/board-connection.service.ts:91-95 | only the sync and update times of the row with that id change |
| Connections.UpdateLastSyncValid | apps/api/src/services/board-connection.service.ts:91-95 | stamping the sync time keeps the store invariant |
| Connections.UpdateLastSyncStamps | apps/api/src/services/board-connection.service.ts:91-95 | after the stamp the row is still there and carries the new sync time |
| Connections.GetDecryptedPassword | apps/api/src/services/board-connection.service.ts:97-99 | without a key the password cannot be read |
| Vault.ToHex | apps/api/src/services/board-connection.service.ts:24-25 | hex text has two lower-case hex digits per byte |
| Vault.HexValue | apps/api/src/services/board-connection.service.ts:31-33 | a hex digit reads back as its value |
| Vault.FromHex | apps/api/src/services/board-connection.service.ts:31-33 | decoding hex yields at most one byte per two characters |
| Vault.FromHexToHex | apps/api/src/services/board-connection.service.ts:24-33 | decoding the hex of any bytes gives the bytes back |
| Vault.FromHexLenient | apps/api/src/services/board-connection.service.ts:31-33 | decoding stops quietly at the first pair that is not hex |
| Vault.NoColonInHex | apps/api/src/services/board-connection.service.ts:24-25 | hex text has no `:`, so the three parts can be split apart again |
| Vault.EncryptionKey | apps/api/src/services/board-connection.service.ts:12-16 | an absent or empty key setting is an error; otherwise the key is the setting's hex bytes |
| Vault.Encrypt | apps/api/src/services/board-connection.service.ts:18-26 | encryption fails exactly without a usable key; otherwise its text splits on `:` into exactly the hex of the IV, of the tag and of the ciphertext the seal produced under that key and IV |
| Vault.Decrypt | apps/api/src/services/board-connection.service.ts:28-37 | without a key decryption fails with the key's error; a text of fewer than three parts fails |
| Vault.DecryptEncrypt | apps/api/src/services/board-connection.service.ts:18-37 | decrypting what was encrypted under the same key gives the plaintext back |
| Vault.DecryptAuthentic | apps/api/src/services/board-connection.service.ts:28-37 | a text decrypts to `p` only if its first three parts are an IV, tag and ciphertext that sealing `p` under the key produces |
| Ascents.ListBySession | apps/api/src/services/ascent.service.ts:9-13 | the listing is exactly the session's ascents, in sortOrder order |
| Ascents.NextSortOrder | apps/api/src/services/ascent.service.ts:25-35 | the next sortOrder exceeds every sortOrder in the session, is 0 for an empty session, and is one past an existing one otherwise |
| Ascents.Create | apps/api/src/services/ascent.service.ts:15-39 | not found unless the user owns the session; a grade unknown to its system is a bad request; otherwise one row is appended that carries every input field as sent, the normalized grade of the grade and sortOrder after every ascent of the session |
| Ascents.CreateSortOrder | apps/api/src/services/ascent.service.ts:25-35 | the first ascent of a session gets sortOrder 0, a later one the largest so far plus one |
| Ascents.CreateListsLast | apps/api/src/services/ascent.service.ts:9-39 | after a create the session's listing is the old listing followed by the new ascent |
| Ascents.CreateValid | apps/api/src/services/ascent.service.ts:15-39 | a create keeps the store invariant |
| Ascents.CreateKeepsGradesConsistent | apps/api/src/services/ascent.service.ts:22-34 | after a create every ascent's normalized grade is its grade's numeric |
| Ascents.Renormalized | apps/api/src/services/ascent.service.ts:54-59 | the normalized grade is recomputed only when both a non-empty grade and a system are sent, and an unknown grade is a bad request |
| Ascents.PatchRows | apps/api/src/services/ascent.service.ts:61-64 | the update rewrites only rows with that id, never their id or session |
| Ascents.Update | apps/api/src/services/ascent.service.ts:41-66 | not found unless the ascent's session is the user's; a bad grade pair is a bad request; a patch that sends nothing is refused with nothing written; otherwise the row is patched and returned |
| Ascents.UpdateRows | apps/api/src/services/ascent.service.ts:54-64 | other rows are untouched, the session stays, and the normalized grade changes only when grade and system are both sent |
| Ascents.UpdateValid | apps/api/src/services/ascent.service.ts:41-66 | an update keeps the store invariant |
| Ascents.PatchKeepsGradeConsistent | apps/api/src/services/ascent.service.ts:54-62 | a patch with grade and system together, or neither, keeps a row's normalized grade in step |
| Ascents.UpdateKeepsGradesConsistent | apps/api/src/services/ascent.service.ts:54-64 | such an update keeps every ascent's normalized grade in step |
| Ascents.PatchRowsKeepGradesConsistent | apps/api/src/services/ascent.service.ts:54-64 | the row-level form of the above |
| Ascents.UpdateGradeAloneGoesStale | apps/api/src/services/ascent.service.ts:54-62 | a new grade sent without its system is stored while the normalized grade stays, so the row falls out of step |
| Ascents.Remove | apps/api/src/services/ascent.service.ts:68-79 | not found unless owned; otherwise exactly that ascent goes, with its ledger rows, and nothing else changes |
| Ascents.RemoveValid | apps/api/src/services/ascent.service.ts:68-79 | a remove keeps the store invariant, and each session's listing loses exactly that ascent |
| Sessions.Listed | apps/api/src/services/session.service.ts:22-56 | the ordered listing has one entry per matching session |
| Sessions.ListedMeans | apps/api/src/services/session.service.ts:22-53 | the listing holds exactly the user's sessions that pass every sent filter, newest date first |
| Sessions.Summarize | apps/api/src/services/session.service.ts:44-50 | a listed row carries its own session |
| Sessions.SummarizeMeans | apps/api/src/services/session.service.ts:48-49 | the ascent count is the number of the session's ascents; the grade is the hardest of them, absent exactly when there are none |
| Sessions.List | apps/api/src/services/session.service.ts:18-61 | a negative limit or offset is refused; otherwise the page and limit echo the request, the total counts every match, and entry i summarizes match offset + i |
| Sessions.Summaries | apps/api/src/services/session.service.ts:44-56 | every session of a page is summarized in page order |
| Sessions.ListPageMatches | apps/api/src/services/session.service.ts:22-57 | a page holds only matching sessions, newest first, never more than the total |
| Sessions.ListDefaults | apps/api/src/services/session.service.ts:18-20 | with no page and no limit, the first twenty matches come back as page 1 |
| Sessions.ListPageOfEveryMatch | apps/api/src/services/session.service.ts:19-56 | every match appears on some page: match k is entry k mod limit of page k div limit + 1 |
| Sessions.ListEntryAt | apps/api/src/services/session.service.ts:20-56 | entry j of a page is the match j places after the page's offset |
| Sessions.ListEntry | apps/api/src/services/session.service.ts:20-56 | on any page that is served, entry j is the match at offset + j |
| Sessions.GetById | apps/api/src/services/session.service.ts:63-94 | not found unless the user owns the session; otherwise the session and exactly its ascents, by sortOrder |
| Sessions.Create | apps/api/src/services/session.service.ts:103-108 | one row is appended under a fresh id, carrying the user, every field of the input (date, type, outdoor flag, location, notes and the other columns) and both timestamps now |
| Sessions.CreateValid | apps/api/src/services/session.service.ts:103-108 | a create keeps the store invariant |
| Sessions.CreateThenGet | apps/api/src/services/session.service.ts:63-108 | a created session reads back as itself with no ascents |
| Sessions.PatchSessions | apps/api/src/services/session.service.ts:110-116 | the update rewrites only the user's row with that id, never its id or owner |
| Sessions.Update | apps/api/src/services/session.service.ts:110-117 | not found, with nothing written, unless the user owns the session; otherwise that row takes the patch and the new updatedAt |
| Sessions.UpdateThenGet | apps/api/src/services/session.service.ts:63-117 | after an update the session reads back as the patched row with the same ascents |
| Sessions.UpdateValid | apps/api/src/services/session.service.ts:110-117 | an update keeps the store invariant |
| Sessions.Remove | apps/api/src/services/session.service.ts:119-124 | not found unless owned; otherwise exactly that session goes, with its ascents |
| Sessions.RemoveThenGet | apps/api/src/services/session.service.ts:63-124 | a remove keeps the store invariant and the session no longer reads back |
| Projects.OwnsProjectFound | apps/api/src/services/project.service.ts:68-71 | the ownership check finds a row exactly when the user has a project with that id |
| Projects.List | apps/api/src/services/project.service.ts:8-15 | the listing is a permutation of the user's projects of the sent status, most recently updated first |
| Projects.AttemptsOf | apps/api/src/services/project.service.ts:23-25 | the attempts query is a permutation of the project's attempts, latest date first |
| Projects.GetById | apps/api/src/services/project.service.ts:17-28 | not found unless owned; otherwise the project and exactly its attempts |
| Projects.ListAttempts | apps/api/src/services/project.service.ts:79-89 | not found unless owned; otherwise exactly the project's attempts, latest first |
| Projects.GetByIdMatchesListAttempts | apps/api/src/services/project.service.ts:17-89 | a project's detail carries exactly the attempts the listing returns, and both fail together |
| Projects.Create | apps/api/src/services/project.service.ts:30-40 | a new active, unsent project under a fresh id; its normalized grade is set exactly when a grade and a system are both given and the system lists the grade |
| Projects.CreateValid | apps/api/src/services/project.service.ts:30-40 | a create keeps the store invariant and every project's normalized grade in step with its grade |
| Projects.CreateThenGet | apps/api/src/services/project.service.ts:17-40 | a created project reads back as itself with no attempts |
| Projects.PatchProjects | apps/api/src/services/project.service.ts:48-54 | the update rewrites only the user's row with that id, never its id or owner |
| Projects.Update | apps/api/src/services/project.service.ts:42-57 | not found, with nothing written, unless owned; a sent ascent id naming no ascent is refused by the foreign key with nothing written; otherwise that row takes the patch and the new updatedAt |
| Projects.UpdateNormalizedGrade | apps/api/src/services/project.service.ts:43-49 | a sent grade with a sent system recomputes the normalized grade, an empty grade clears it, and anything else leaves it |
| Projects.PatchKeepsGradeInStep | apps/api/src/services/project.service.ts:43-49 | a patch with grade and system together, or neither, keeps a project's normalized grade in step |
| Projects.UpdateValid | apps/api/src/services/project.service.ts:42-57 | an update keeps the store invariant, and such a patch keeps every normalized grade in step |
| Projects.PatchProjectsInStep | apps/api/src/services/project.service.ts:43-54 | the row-level form of the above |
| Projects.UpdateThenGet | apps/api/src/services/project.service.ts:17-57 | after an update the project reads back as the patched row with the same attempts |
| Projects.Remove | apps/api/src/services/project.service.ts:59-64 | not found unless owned; otherwise exactly that project goes, with its attempts, and sessions and ascents stay |
| Projects.RemoveThenGet | apps/api/src/services/project.service.ts:17-64 | a remove keeps the store invariant and the project no longer reads back |
| Projects.AddAttempt | apps/api/src/services/project.service.ts:66-77 | not found unless owned; a session or ascent id naming no row is refused by the foreign key on that column with nothing inserted; otherwise one attempt of that project is appended under a fresh id with the input's date, session and ascent |
| Projects.AddAttemptThenList | apps/api/src/services/project.service.ts:66-89 | an added attempt is listed along with the earlier ones, and the store invariant holds |
| Wellbeing.FoundIffLogged | apps/api/src/services/wellbeing.service.ts:9-11 | the lookup finds a row exactly when the user has a log of that day |
| Wellbeing.OverwriteRows | apps/api/src/services/wellbeing.service.ts:14-17 | the update rewrites only the row with that id, never its id or owner |
| Wellbeing.Existing | apps/api/src/services/wellbeing.service.ts:9-11 | the lookup returns a log of that user and day exactly when one exists |
| Wellbeing.Upsert | apps/api/src/services/wellbeing.service.ts:7-25 | an existing log of the day keeps its id and unsent keys and takes every sent key; otherwise a new log is inserted; nothing else in the store changes |
| Wellbeing.OverwriteNoop | apps/api/src/services/wellbeing.service.ts:13-18 | overwriting a log with what it already holds changes no row |
| Wellbeing.OverwriteKeepsKeys | apps/api/src/services/wellbeing.service.ts:13-18 | only the found log changes, and it keeps its user and day |
| Wellbeing.UpsertValid | apps/api/src/services/wellbeing.service.ts:7-25 | an upsert keeps the store invariant, including one log per user and day, and unique ids |
| Wellbeing.OverwriteRowsValid | apps/api/src/services/wellbeing.service.ts:13-18 | the update branch keeps both unique indexes and the id counter |
| Wellbeing.UpsertKeepsOtherLogs | apps/api/src/services/wellbeing.service.ts:7-25 | logs of other days or users survive unchanged, and none appears |
| Wellbeing.GetByDate | apps/api/src/services/wellbeing.service.ts:37-43 | not found exactly when the user has no log of that day; otherwise a log of that user and day |
| Wellbeing.OnlyLogOfDay | apps/api/src/db/schema/wellbeing.ts:22 | under the unique index two logs with the same user and day are the same log |
| Wellbeing.UpsertThenGet | apps/api/src/services/wellbeing.service.ts:7-43 | after an upsert the day's log reads back as the row the upsert returned |
| Wellbeing.UpsertOneLog | apps/api/src/services/wellbeing.service.ts:7-25 | after an upsert the user has exactly one log of that day |
| Wellbeing.UpsertTwice | apps/api/src/services/wellbeing.service.ts:7-25 | upserting the same body again changes nothing |
| Wellbeing.List | apps/api/src/services/wellbeing.service.ts:27-35 | the listing holds exactly the user's logs in the range, each once per stored row, latest day first |
| Wellbeing.ListOneDay | apps/api/src/services/wellbeing.service.ts:27-43 | a one-day range lists exactly the log the day lookup returns, or nothing |
| Stats.JoinOne | apps/api/src/services/stats.service.ts:16-18 | an ascent joins exactly the user's sessions with its session id |
| Stats.Join | apps/api/src/services/stats.service.ts:16-18 | the inner join holds exactly the pairs of an ascent and the user's session it belongs to |
| Stats.MaxGrade | apps/api/src/services/stats.service.ts:14 | `max` is absent exactly over no rows, and otherwise is the largest normalized grade among them |
| Stats.Summarize | apps/api/src/services/stats.service.ts:6-51 | the totals count the user's sessions, joined ascents and sends; the month counts take sessions dated from the month start and sends in them; each maximum is attained by one of its rows and bounds them all, and the month's is absent exactly when the month has no send |
| Stats.SummaryBounds | apps/api/src/services/stats.service.ts:6-51 | sends never outnumber ascents, the month never exceeds the totals, and the month's hardest send is no harder than the hardest ascent |
| Stats.ToRow | apps/api/src/services/stats.service.ts:62-66 | a group's row carries its date, its size as the send count and its hardest grade |
| Stats.DateGroups | apps/api/src/services/stats.service.ts:70-71 | the groups are exactly the groups by session date, non-empty, in strictly ascending date order |
| Stats.RowsOf | apps/api/src/services/stats.service.ts:62-71 | rows come in strictly ascending date order, each with at least one send and a grade |
| Stats.Progression | apps/api/src/services/stats.service.ts:53-74 | the rows come one per date, strictly ascending, each with at least one send and a grade |
| Stats.DateGroupsItems | apps/api/src/services/stats.service.ts:70 | each date group holds exactly the sends of its date, in order |
| Stats.DateGroupsKeys | apps/api/src/services/stats.service.ts:70 | there is a group for exactly the session dates of the sends |
| Stats.RowsOfDates | apps/api/src/services/stats.service.ts:62-71 | there is a row for a date exactly when some send has that session date |
| Stats.RowsOfKeys | apps/api/src/services/stats.service.ts:62-71 | the rows carry exactly the groups' dates |
| Stats.GroupRowsKeys | apps/api/src/services/stats.service.ts:62-66 | aggregating any groups keeps exactly their keys as dates |
| Stats.SessionDatesOf | apps/api/src/services/stats.service.ts:63 | a date is among the sends' session dates exactly when some send has it |
| Stats.ProgressionDates | apps/api/src/services/stats.service.ts:53-74 | there is a row for a date exactly when the user has a send in the window from a session of that date |
| Stats.RowOfItems | apps/api/src/services/stats.service.ts:62-71 | a row aggregates exactly the sends of its date |
| Stats.RowOfCounts | apps/api/src/services/stats.service.ts:62-71 | a row counts exactly the day's sends and carries the hardest of them |
| Stats.RowsOfCounts | apps/api/src/services/stats.service.ts:62-71 | the same for every row |
| Stats.ProgressionRows | apps/api/src/services/stats.service.ts:53-74 | each row counts exactly the day's sends in the window and carries the hardest of them |
| Strings.Utf16Length | packages/shared/src/types/ascent.ts:6 | the length a string limit compares counts UTF-16 code units: at least the number of characters, at most twice it, and equal exactly when no character lies beyond U+FFFF |
| Strings.Utf16LengthAppend | packages/shared/src/types/ascent.ts:6 | the length of a concatenation is the sum of the lengths |
| Strings.Utf16Prefix | apps/api/src/services/board-import.service.ts:102 | `slice(0, n)` keeps a prefix of whole characters at most `n` UTF-16 code units long, and stops only where the next character would pass `n` |
| Strings.Utf16PrefixBmp | apps/api/src/services/board-import.service.ts:102 | on text with no character beyond U+FFFF, `slice(0, n)` is the first `n` characters |
| Schemas.AstralCharCountsTwice | packages/shared/src/types/ascent.ts:5 | one character beyond U+FFFF is two units long, so a limit of one refuses it |
| Schemas.Parse | packages/shared/src/types/ascent.ts:4-19 | a parse succeeds exactly when the object schema accepts the value, and its output has only the schema's keys |
| Schemas.Partial | packages/shared/src/types/ascent.ts:21 | `.partial()` keeps every field and its check and makes each optional |
| Schemas.PartialAcceptsMore | packages/shared/src/types/ascent.ts:21 | whatever a schema accepts, its partial form accepts too |
| Schemas.PartialAcceptsIff | packages/shared/src/types/session.ts:18 | a partial schema accepts an object exactly when every present key it names passes its check |
| Schemas.AcceptedFieldPasses | packages/shared/src/types/ascent.ts:4-19 | an accepted object has every required field, and every present field passes its check |
| Schemas.ParseOutput | packages/shared/src/types/ascent.ts:9 | a given value is output as given, an absent field with a default gets the default, and one without stays absent |
| Schemas.CreateAscentRules | packages/shared/src/types/ascent.ts:4-19 | an accepted ascent has a grade of 1–20 UTF-16 units, the three enums, whole attempts from 1, rating 1–5, board angle 0–70 and bounded name and climb id |
| Schemas.CreateAscentAttemptsDefault | packages/shared/src/types/ascent.ts:9 | attempts default to 1 |
| Schemas.CreateSessionRules | packages/shared/src/types/session.ts:4-16 | an accepted session has a pattern date, a session type, moods and energy 1–5, exertion 1–10 |
| Schemas.OutdoorIsLastSessionField | packages/shared/src/types/session.ts:15 | `isOutdoor` is a boolean field defaulting to false, and no other field has its name |
| Schemas.CreateSessionOutdoorDefault | packages/shared/src/types/session.ts:15 | `isOutdoor` defaults to false on a new session |
| Schemas.UpdateSessionKeepsOutdoor | packages/shared/src/types/session.ts:18 | an update without `isOutdoor` leaves it out rather than resetting it |
| Schemas.CreateWellbeingRules | packages/shared/src/types/wellbeing.ts:3-20 | an accepted log has a pattern date, sleep of 0–24 hours and a positive body weight |
| Schemas.CreateWellbeingSoreness | packages/shared/src/types/wellbeing.ts:12 | soreness maps each body part to an integer 1–5 |
| Schemas.CreateWellbeingMetrics | packages/shared/src/types/wellbeing.ts:6-11 | the six metrics are integers 1–5 |
| Schemas.WellbeingInjuryRules | packages/shared/src/types/wellbeing.ts:13-17 | each injury names an area and a severity 1–5 |
| Schemas.CreateProjectRules | packages/shared/src/types/project.ts:4-14 | an accepted project has a name of 1–255 UTF-16 units, a project type and a pattern target date |
| Schemas.UpdateProjectRules | packages/shared/src/types/project.ts:16-20 | the update schema accepts what the create schema accepts plus a valid status, sent date and sent ascent id, and what it accepts has a valid status and sent date |
| Schemas.CreateProjectAttemptRules | packages/shared/src/types/project.ts:22-28 | an attempt has a pattern date and a progress rating 1–5 |
| Schemas.ConnectBoardRules | packages/shared/src/types/board.ts:4-8 | a connection request is accepted exactly when it has a board type and a username and a password of 1–255 UTF-16 units |
| Schemas.DatePatternSyntactic | packages/shared/src/types/session.ts:6 | the date pattern is syntactic: it admits 2024-02-30 and rejects 2024-2-03 and a time suffix |
| Schemas.UpdatesAcceptEmpty | packages/shared/src/types/project.ts:16-20 | the update schemas accept the empty object |
| Durations.JsRem | packages/shared/src/utils/dates.ts:31 | JavaScript's remainder takes the sign of the dividend and stays below the divisor in size |
| Durations.FloorDiv | packages/shared/src/utils/dates.ts:30 | `Math.floor(a / b)` is the largest multiple count not above a |
| Durations.ReadNatToString | packages/shared/src/utils/dates.ts:32-34 | a rendered count reads back as itself |
| Durations.FormatDurationParts | packages/shared/src/utils/dates.ts:30-31 | `formatDuration` (Durations.FormatDuration): for a non-negative length the hours and minutes recompose it, with minutes below an hour |
| Durations.FormatDurationRoundTrip | packages/shared/src/utils/dates.ts:29-35 | `formatDuration`: reading back the rendering of a non-negative length gives the length |
| Durations.FormatDurationShapes | packages/shared/src/utils/dates.ts:32-34 | `formatDuration`: zero renders as `0m`, whole hours without minutes, and both parts otherwise |
| Durations.FormatDurationNegative | packages/shared/src/utils/dates.ts:30-31 | a negative length renders with floored hours and a truncated remainder that no longer recompose it |
| Expiry.Multiplier | apps/api/src/routes/auth.ts:9-10 | exactly the four unit letters have a multiplier |
| Expiry.ParseExpiry | apps/api/src/routes/auth.ts:7-12 | text that does not match the anchored pattern gives the 900-second default |
| Expiry.UnknownUnitUnreachable | apps/api/src/routes/auth.ts:10-11 | every unit the pattern admits has a multiplier, so the 60 fallback is never taken |
| Expiry.ParseExpiryRoundTrip | apps/api/src/routes/auth.ts:7-12 | a count followed by a unit letter parses to the count times 1, 60, 3600 or 86400 |
| Expiry.ParseExpiryAnchored | apps/api/src/routes/auth.ts:8 | a non-digit in front or any character after the unit forces the default |
| Expiry.ParseExpiryExamples | apps/api/src/routes/auth.ts:7-12 | `15m` is 900 seconds, `7d` a week, and `15 m` or the empty text the default |
| Enums.ParseGradeSystem | packages/shared/src/constants/enums.ts:22 | exactly the four system names are accepted, each as the system of that name |
| Enums.GradeSystemNameRoundTrip | packages/shared/src/constants/enums.ts:22 | every system's name reads back as that system |
| Grades.NumericsBetween | packages/shared/src/constants/grades.ts:69-89 | along an increasing table numerics are bounded by the first and last rows and follow position |
| Grades.AdjacentToStrict | packages/shared/src/constants/grades.ts:11-121 | neighbours increasing makes the whole table strictly increasing |
| Grades.FontAdjacent | packages/shared/src/constants/grades.ts:11-36 | each Font row's numeric exceeds the one before |
| Grades.FontIncreasing | packages/shared/src/constants/grades.ts:11-36 | the Font numerics strictly increase |
| Grades.FontNumbered | packages/shared/src/constants/grades.ts:11-36 | every Font row is of the Font system and its sortOrder is its position |
| Grades.FontWellFormed | packages/shared/src/constants/grades.ts:11-36 | the Font table is well formed |
| Grades.FrenchAdjacent | packages/shared/src/constants/grades.ts:38-67 | each French row's numeric exceeds the one before |
| Grades.FrenchIncreasing | packages/shared/src/constants/grades.ts:38-67 | the French numerics strictly increase |
| Grades.FrenchNumbered | packages/shared/src/constants/grades.ts:38-67 | every French row is of the French system and its sortOrder is its position |
| Grades.FrenchWellFormed | packages/shared/src/constants/grades.ts:38-67 | the French table is well formed |
| Grades.VScaleAdjacent | packages/shared/src/constants/grades.ts:69-89 | each V-scale row's numeric exceeds the one before |
| Grades.VScaleIncreasing | packages/shared/src/constants/grades.ts:69-89 | the V-scale numerics strictly increase |
| Grades.VScaleNumbered | packages/shared/src/constants/grades.ts:69-89 | every V-scale row is of the V scale and its sortOrder is its position |
| Grades.VScaleWellFormed | packages/shared/src/constants/grades.ts:69-89 | the V-scale table is well formed |
| Grades.YdsAdjacent | packages/shared/src/constants/grades.ts:91-121 | each YDS row's numeric exceeds the one before |
| Grades.YdsIncreasing | packages/shared/src/constants/grades.ts:91-121 | the YDS numerics strictly increase |
| Grades.YdsNumbered | packages/shared/src/constants/grades.ts:91-121 | every YDS row is of the YDS system and its sortOrder is its position |
| Grades.YdsWellFormed | packages/shared/src/constants/grades.ts:91-121 | the YDS table is well formed |
| Grades.TablesWellFormed | packages/shared/src/constants/grades.ts:123-132 | the table of every system is strictly increasing, of that system, with sortOrder equal to position |
| Grades.NumericIn | packages/shared/src/constants/grades.ts:146-149 | the lookup behind `gradeToNumeric` (Grades.GradeToNumeric) is absent exactly when no row has the label, and otherwise is the numeric of a row with it |
| Grades.NumericAtRow | packages/shared/src/constants/grades.ts:146-149 | with distinct labels, a row's label leads to that row's numeric |
| Grades.VScaleLabelsDistinct | packages/shared/src/constants/grades.ts:69-89 | no V-scale label is listed twice |
| Grades.VScaleLabelsDistinctFrom | packages/shared/src/constants/grades.ts:69-89 | a stretch of V-scale labels differs from every later label |
| Grades.VScaleEnds | packages/shared/src/constants/grades.ts:69-89 | the V scale has 19 rows running from 300 to 967 |
| Grades.ClosestIsGreatestAtOrBelow | packages/shared/src/constants/grades.ts:151-161 | the loop of `numericToGrade` (Grades.NumericToGrade) keeps the row with the greatest numeric at or below the target, and finds none exactly when every row is above it |
| Grades.UniqueNumeric | packages/shared/src/constants/grades.ts:69-89 | in an increasing table a row is fixed by its numeric |
| Grades.ClosestOfOwnNumeric | packages/shared/src/constants/grades.ts:151-161 | a row's own numeric leads back to that row |
| Grades.ClosestMonotone | packages/shared/src/constants/grades.ts:151-161 | a larger target never keeps an earlier row, nor none after a row |
| Grades.GradeNumericRoundTrip | packages/shared/src/constants/grades.ts:146-161 | every label of a system maps to its numeric and back to itself |
| Grades.ClosestSortOrderMonotone | packages/shared/src/constants/grades.ts:151-161 | over a well-formed table a larger numeric never yields a grade of smaller sortOrder |
| Grades.BandsOf | packages/shared/src/constants/grades.ts:138-144 | `getBands` (Grades.GetBands): every band of the table appears exactly once, in order of first appearance |
| Grades.GradesInBand | packages/shared/src/constants/grades.ts:134-136 | `getGradesByBand` (Grades.GetGradesByBand): the filter keeps exactly the rows of that band |
| Grades.BandsPartitionTable | packages/shared/src/constants/grades.ts:134-144 | grouping by band yields exactly the bands listed, each holding exactly the rows of its band, every row once |
| Grades.GetGradeColor | packages/shared/src/constants/grades.ts:164-172 | the colour is that of the unique rung of the ladder the numeric lies on |
| Grades.RungUnique | packages/shared/src/constants/grades.ts:164-172 | every numeric lies on exactly one rung |
| Grades.GradeColorMonotone | packages/shared/src/constants/grades.ts:164-172 | a larger numeric never moves down the colour ladder |
| KilterGrades.GradesOf | packages/shared/src/constants/kilter.ts:11-31 | the grades of the table, in table order |
| KilterGrades.KilterThresholds | packages/shared/src/constants/kilter.ts:11-31 | the 19 thresholds are 1, 4, … 55, so they strictly increase |
| KilterGrades.KilterGradesDistinct | packages/shared/src/constants/kilter.ts:11-31 | no grade appears twice in the table |
| KilterGrades.ScanSpec | packages/shared/src/constants/kilter.ts:37-44 | the scan of `kilterDifficultyToVGrade` (KilterGrades.KilterDifficultyToVGrade) yields the grade of the largest threshold at or below the difficulty, and the start grade below the first |
| KilterGrades.RungExists | packages/shared/src/constants/kilter.ts:37-44 | a difficulty at or above the first threshold lies on exactly one rung |
| KilterGrades.KilterDifficultyToVGradeSpec | packages/shared/src/constants/kilter.ts:37-44 | `kilterDifficultyToVGrade`: below 1 the grade is VB; otherwise it is the grade of the difficulty's rung |
| KilterGrades.RungOrder | packages/shared/src/constants/kilter.ts:37-44 | a larger difficulty never lies on an earlier rung |
| KilterGrades.Rung | packages/shared/src/constants/kilter.ts:37-44 | the table position of a difficulty's grade, 0 below the first threshold |
| KilterGrades.KilterDifficultyToVGradeMonotone | packages/shared/src/constants/kilter.ts:37-44 | a harder climb never maps to an earlier V grade |
| KilterGrades.KilterLandmarks | packages/shared/src/constants/kilter.ts:20-30 | from 55 up the grade is V17, and 25 gives V7 |
| KilterGrades.KilterTop | packages/shared/src/constants/kilter.ts:30 | every difficulty from 55 up is V17 |
| KilterGrades.KilterTwentyFive | packages/shared/src/constants/kilter.ts:20 | a difficulty of 25 is V7 |
| KilterGrades.KilterGradesAreVScale | packages/shared/src/constants/kilter.ts:11-31 | the table lists the V scale's grades in the V scale's order |
| KilterGrades.KilterNumericFound | packages/shared/src/constants/kilter.ts:50-54 | `kilterDifficultyToNumeric` (KilterGrades.KilterDifficultyToNumeric): every Kilter grade has a V-scale definition, so the 300 fallback is never used |
| KilterGrades.KilterNumericBoundsAndMonotone | packages/shared/src/constants/kilter.ts:50-54 | the numeric `kilterDifficultyToNumeric` gives lies in 300–967 and never decreases as difficulty grows |
| Store.Merge | apps/api/src/services/session.service.ts:112 | a spread patch keeps every key of both maps, the patch's values winning |
| Store.EmptyValid | apps/api/src/db/schema/imported-climbs.ts:5-15 | the empty store satisfies every foreign key and unique index |
| Store.NullIfGone | apps/api/src/db/schema/projects.ts:33 | a nullable link to a deleted row becomes null and any other link stays |
| Store.AscentIdsWhere | apps/api/src/db/schema/imported-climbs.ts:11 | the ids of exactly the selected ascents |
| Store.DeleteAscentsWhere | apps/api/src/db/schema/imported-climbs.ts:11 | deleting ascents removes exactly them and their ledger rows, nulls the attempt and project links to them, and leaves the rest |
| Store.DeleteSession | apps/api/src/db/schema/ascents.ts:6 | deleting a session removes exactly it and its ascents, and nulls attempt links to it |
| Store.DeleteProject | apps/api/src/db/schema/projects.ts:31 | deleting a project removes exactly it and its attempts and leaves the other tables |
| Store.DeleteAscentsLedgerLinks | apps/api/src/db/schema/imported-climbs.ts:11 | every ledger row that survives still names a surviving ascent |
| Store.DeleteAscentsKeepsIds | apps/api/src/db/schema/projects.ts:20-33 | nulling links keeps the ids and the attempts' projects |
| Store.DeleteAscentsValid | apps/api/src/db/schema/imported-climbs.ts:11 | deleting ascents keeps the store invariant |
| Store.DeleteSessionValid | apps/api/src/db/schema/ascents.ts:6 | deleting a session keeps the store invariant |
| Store.DeleteSessionLinks | apps/api/src/db/schema/ascents.ts:6 | the foreign keys and the id counter survive a session delete |
| Store.DeleteSessionAscentLinks | apps/api/src/db/schema/ascents.ts:6 | no surviving ascent names the deleted session |
| Store.DeleteSessionAttemptLinks | apps/api/src/db/schema/projects.ts:31-32 | attempts keep their projects and ids through a session delete |
| Store.AppendAscentValid | apps/api/src/db/schema/ascents.ts:5-6 | appending an ascent of an existing session under a fresh id keeps the invariant |
| Store.AppendSessionValid | apps/api/src/db/schema/sessions.ts:5-7 | appending a session under a fresh id keeps the invariant |
| Store.RewriteSessionsValid | apps/api/src/db/schema/sessions.ts:5-6 | rewriting sessions without touching their ids keeps the invariant |
| Store.RewriteAscentsValid | apps/api/src/db/schema/ascents.ts:5-6 | rewriting ascents without touching their ids or sessions keeps the invariant |
| Store.RewriteAscentsIds | apps/api/src/db/schema/ascents.ts:5 | rewriting ascents without touching their ids keeps every id below the counter |
| Store.RewriteAscentsKeys | apps/api/src/db/schema/ascents.ts:6 | rewriting ascents without touching ids or sessions keeps the foreign keys |
| Store.AppendProjectValid | apps/api/src/db/schema/projects.ts:7-20 | appending a project under a fresh id, whose sent ascent exists when set, keeps the invariant |
| Store.RewriteProjectsValid | apps/api/src/db/schema/projects.ts:7-20 | rewriting projects without touching their ids, linking only existing ascents, keeps the invariant |
| Store.AppendAttemptValid | apps/api/src/db/schema/projects.ts:29-33 | appending an attempt of an existing project under a fresh id, whose session and ascent exist when set, keeps the invariant |
| Store.NullableLinksGrow | apps/api/src/db/schema/projects.ts:20-33 | the nullable links survive any change that keeps every session and ascent and writes only links that held |
| Store.NullIfGoneAscent | apps/api/src/db/schema/projects.ts:20-33 | a link a delete of ascents leaves set still names a surviving ascent |
| Store.DeleteAscentsNullable | apps/api/src/db/schema/projects.ts:20-33 | deleting ascents (ON DELETE SET NULL) leaves no project or attempt linked to a missing ascent |
| Store.DeleteSessionNullable | apps/api/src/db/schema/projects.ts:32-33 | deleting a session leaves no attempt linked to it or to one of its ascents |
| Store.DeleteProjectValid | apps/api/src/db/schema/projects.ts:31 | deleting a project keeps the invariant |
| Seqs.Page | apps/api/src/services/session.service.ts:55-56 | `LIMIT`/`OFFSET` keep the rows from the offset on, at most limit of them, in order |
| Seqs.MaxOf | apps/api/src/services/stats.service.ts:14 | SQL `max` is absent exactly over no values and otherwise the largest of them |
| Seqs.GroupBy | apps/api/src/services/stats.service.ts:70 | `GROUP BY` yields non-empty groups under distinct keys that together hold every row once |
| Strings.SortStrDesc | apps/api/src/services/session.service.ts:54 | `ORDER BY date DESC` is a permutation ordered by descending date text |
| Strings.SortStrAsc | apps/api/src/services/stats.service.ts:71 | `ORDER BY date` is a permutation ordered by ascending date text |
| Strings.ReplaceFirst | apps/api/src/services/kilter.service.ts:138 | `.replace` with a text pattern swaps the first occurrence only, and nothing when there is none |
| Strings.Split | apps/api/src/services/board-connection.service.ts:30 | `split(':')` yields at least one part and no part contains the separator |
| Strings.SplitJoin3 | apps/api/src/services/board-connection.service.ts:25-30 | three colon-free parts joined by the separator split back into those three |
| Strings.IntToString | packages/shared/src/utils/dates.ts:32-34 | an integer renders as its digits, with a minus sign when negative |

## Left out

- HTTP and JSON decoding: `fetch`, headers, the user agent and response parsing in `kilter.service.ts`. Vendor answers arrive as already-decoded datatypes from two function parameters.
- AES-256-GCM and `randomBytes`: the cipher is a pair of function parameters (seal and open) and the IV a parameter. Only the `iv:tag:ciphertext` hex framing is modelled.
- Clocks and `Date`: `new Date()` becomes a `now` parameter, and `toISOString` a function parameter. `new Date(climbed_at)` in the dedup key is an opaque text. The month start of `summary` is a parameter. `toDbValues` only converts `startTime`/`endTime` to `Date`, so it is the identity here.
- Floating point: `durationMinutes` is not modelled. Kilter difficulties and JSON numbers are exact reals. `formatDuration` is modelled on whole minutes: a fractional `number` such as 90.5, which the source renders as `1h 30.5m`, has no counterpart.
- Concurrency: two imports running at once can both pass the dedup test. The model runs one operation at a time, and the unique indexes are part of the store invariant.
- Column widths: `smallint` and `varchar` limits in the tables are not enforced, so a value too wide for its column is stored where Postgres would refuse the write. Some columns receive values no request schema bounds: the computed `sortOrder` (a `smallint`, one more than the session's largest), the attempts the import takes from the vendor's `bid_count`, and the climb names and uuids it copies from the vendor into `varchar` columns.
- Date text: Postgres reads a `date` column's input through its date parser, and the model compares and stores `YYYY-MM-DD` text instead. A query bound written another way (`2024-3-1`, `today`) can select other rows in the source, text that is not a date fails the query there, and a patterned date that is not on the calendar (`2024-02-30`, which the request schemas admit) is refused on write. The lines below name each member this affects.
- Sessions.ListedMeans: the `from` and `to` filters compare the query text with the stored date as text. The contract states the source's result only for bounds written as valid `YYYY-MM-DD` dates.
- Sessions.List: its date filters are those of Sessions.ListedMeans, with the same restriction.
- Sessions.Create: a date that matches the pattern but is not on the calendar is stored, where Postgres refuses the insert.
- Sessions.Update: a patched date that matches the pattern but is not on the calendar is stored, where Postgres refuses the update.
- Projects.Create: a target date that matches the pattern but is not on the calendar is stored, where Postgres refuses the insert.
- Projects.Update: a patched target or sent date that is not on the calendar is stored, where Postgres refuses the update.
- Projects.AddAttempt: an attempt date that matches the pattern but is not on the calendar is stored, where Postgres refuses the insert.
- Wellbeing.Upsert: a date that matches the pattern but is not on the calendar is looked up and inserted, where Postgres refuses the query.
- Wellbeing.GetByDate: the `:date` path text is compared with stored dates as text. A date written another way is not found, and text that is not a date reads as not found where the source's query fails.
- Wellbeing.List: the `from` and `to` bounds compare as text, with the restriction of Sessions.ListedMeans.
- Stats.Progression: the `from` and `to` bounds compare as text, with the restriction of Sessions.ListedMeans.
- Stats.ProgressionDates: the window test compares the bounds as text, with the restriction of Sessions.ListedMeans.
- Stats.ProgressionRows: the window test compares the bounds as text, with the restriction of Sessions.ListedMeans.
- BoardImport.FindSession: the date prefix is compared with stored dates as text, where Postgres parses `dateStr` as a date. A prefix written another way (`2024-3-1 1` from a `climbed_at` of `2024-3-1 10:00`) fails the source's query but simply matches nothing here.
- BoardImport.CreateSessionWithAscents: the date prefix is stored as text in the session's `date` column, so a prefix that is not a calendar date opens a session here, where Postgres refuses the insert. BoardImport.ImportFetched and BoardImport.ImportKilterHistory inherit this.
- Prototype names in the sync payload: `kilter.service.ts` tests an echo's table with `in` on a plain object, which is also true for names the object inherits (`constructor`, `toString`, `hasOwnProperty` and the other `Object.prototype` members). The model tests the payload's own keys only.
- KilterClient.ApplyEchoes: an echo naming an inherited member with a time adds that name to the payload in the source; the model ignores it, so its key set never grows.
- KilterClient.Advance: it inherits the restriction of KilterClient.ApplyEchoes.
- KilterClient.SyncPagesKeys: every request keeps the starting tables only while no echo names an inherited member.
- KilterClient.FetchTablesFixed: the requests ask for exactly the climbs and ascents tables only while no echo names an inherited member.
- Location links: `sessions.location_id` and `projects.location_id` reference `locations.id`. Locations are outside the model, so a location id that names no location is stored and returned, where Postgres refuses the write and the service throws.
- Sessions.Create: a `locationId` naming no location is stored, where the foreign key refuses the insert.
- Sessions.Update: a patched `locationId` naming no location is stored, where the foreign key refuses the update.
- Projects.Create: a `locationId` naming no location is stored, where the foreign key refuses the insert.
- Projects.Update: a patched `locationId` naming no location is stored, where the foreign key refuses the update.
- Raw counts: `count(*)` written as raw SQL comes back from the Postgres driver as `int8` text, so the source's callers receive `"3"` and not `3`. The model returns numbers.
- Sessions.SummarizeMeans: `ascentCount` is a number in the model and a decimal text in the source.
- Stats.Summarize: `totalSends` is a number in the model and a decimal text in the source.
- Lone surrogates: `slice(0, 10)` can cut a character beyond U+FFFF in half and keep its high surrogate, which a string of whole characters cannot hold. The model stops before such a character.
- Strings.Utf16Prefix: where a character beyond U+FFFF straddles the cut, the source keeps its high surrogate and the model keeps one code unit less.
- BoardImport.DatePrefixSpec: inherits the restriction of Strings.Utf16Prefix. Only a timestamp with such a character among its first ten code units is affected.
- BoardImport.GroupByDateSpec: when a character beyond U+FFFF straddles the tenth code unit, the source groups two timestamps together only if that character's high surrogates match. The model drops the character, so it groups them whenever the nine units before it match.
- The `locationName` left join of the session listing is left out because it only adds a display column. Locations, users and the location and auth services are outside the model.
- zod's `uuid`, `datetime` and `url` string formats are predicates passed in as parameters. The `location` and `user` schemas are not modelled.
- Routes, the JWT middleware, token signing and bcrypt are not modelled. Only `parseExpiry` is kept from the auth routes.
- The empty `boardUserId` block of the import has no behaviour and is not modelled.
- The `packages/shared` index does not re-export `kilter.ts` or `board.ts`. The model imports those modules directly.
- Primary-key uniqueness: the store invariant covers the three unique indexes and the foreign keys. It does not cover primary keys. Where the wellbeing proofs need unique log ids, they require `Wellbeing.LogIdsDistinct` separately.
- Ties under `ORDER BY`: SQL leaves the order of equal keys open. The model's stable sort picks one such order, and the contracts only state the order the query fixes.
- Connections.GetDecryptedPassword: its contract states only the missing-key error. The round trip through `create` is proved by Connections.CreateValidAndRecoverable, and tampering is covered by Vault.DecryptAuthentic.
- BoardImport.ClimbNames: its contract states only which uuids have an entry. The last-write-wins value is proved by BoardImport.ClimbNamesLast.
- Sessions.Summarize: its contract states only that a row carries its session. The count and the maximum are proved by Sessions.SummarizeMeans.
- Sessions.Listed: its contract states only the length of the listing. Its contents and order are proved by Sessions.ListedMeans.

## Behaviour of the code worth knowing

- `sessionsCreated` grows by one for every date group, including a group filed under an existing session (BoardImport.ImportFetchedSessions).
- A Kilter difficulty of 25 maps to V7, because the table in `kilter.ts` lists 25 against V7 (KilterGrades.KilterLandmarks).
- In `summary`, `highestGrade` takes every ascent while the month figures take sends only.
- An update that sends a grade without its system stores the grade but keeps the old normalized grade (Ascents.UpdateGradeAloneGoesStale).
- A project grade that its system does not list is stored without a normalized grade rather than refused.
