# Skillex in Dafny

Skillex indexes agent skills into a small database and answers queries over them. Around that
core run several protocols that must not go wrong quietly: a path index that has to agree with
glob matching, a paging cursor over two streams, an update checker shared by many processes, a
file watcher, a registry fingerprint, signed references to capabilities, and verified pack
archives. This project models those parts and proves what they are for.

`dafny verify dfyconfig.toml` checks everything.

## How the model is laid out

| file | what it models |
|---|---|
| `Strings.dfy`, `Order.dfy`, `Base64.dfy` | splitting and joining, bytewise order, unpadded base64url |
| `Glob.dfy` | the glob matcher, for patterns without brackets and braces |
| `PathIndex.dfy`, `Registry.dfy` | scope classification, the scope index, the skill tables and their operations |
| `QueryEngine.dfy` | the four evaluation strategies, the cursor, paging |
| `UpdateCheck.dfy` | lease, cache, backoff and retry time of the update checker |
| `WatchJobs.dfy`, `WatchStamp.dfy`, `WatchSync.dfy` | debounce timers and job counter, the database stamp, incremental maintenance |
| `Fingerprint.dfy` | the bytes that go into the registry fingerprint |
| `References.dfy`, `Broker.dfy` | signed references, and the gate in front of every connector |
| `PackArchive.dfy`, `PackEvidence.dfy` | extraction, writing, installation and validation of packs, and the signed evidence for them |
| `AgentScopes.dfy` | scopes of discovered agent skills |
| `Sections.dfy`, `Scenarios.dfy`, `Activation.dfy`, `CanonicalJson.dfy` | the text and tree transformations |

Objects whose methods change fields (`Registry`, `Engine`, `Watcher`, `ByteBuffer`, `Disk`,
`Store`, `Broker`) are classes, and loops of the program are loops. Protocols in which several
processes, goroutines or callers take turns are state machines over atomic steps, and the
theorems hold for every sequence of enabled steps. In `WatchJobs` one step is one statement
that another goroutine can interleave with.

SQLite tables are maps and sequences of rows, full-text search and the capability catalog are
given as ordered results. SHA-256 and HMAC are ideal: the fingerprint is compared as a buffer,
a schema digest as its payload, and `Broker.Unforged` says that whatever carries the seal was
sealed by this signer. JSON reading and printing are functions passed in, with the round trip
they must satisfy as a hypothesis. Clocks, nonces, readiness, signature checks and version
order are parameters in the same way. `Strings.WINDOWS` has no value: what mentions the host's
path separator holds on every host.

Theorems about a whole operation are stated through functions of the model. What such a function
means, in terms of its inputs alone, is proved beside it by a lemma whose name ends in `Exactly`.

## What turned out not to hold

Where the code promises less than one would expect, the model follows the code and the theorem
states the exact condition.

* A literal scope that ends in a slash shares its index key with directory prefixes, so the
  index answers more than the glob (`PathIndex.IndexAgreesUnlessDirectory`,
  `Registry.IndexEqualsScan`).
* A topic or tag given twice matches nothing, because the distinct labels are counted against
  the length of the request (`Registry.OwnersOfAllExactly`,
  `QueryEngine.StrategiesAnswerNaiveFilter`).
* The update checker spaces attempts, not requests: a process with a lagging clock that crashes
  between its backoff and its request resets the schedule. For one attempt after another,
  `UpdateCheck.ConsecutiveAttempts`, `AfterFailure`, `AfterRetry` and `AfterSuccess` say exactly
  which readings come too early; `CrashResetsSchedule` says for all readings which such runs exist.
* A change made by another process while the watcher writes is noted together with the own
  write and does not cause a rearm (`WatchStamp.RearmsExactly`, `ForeignWriteBracketed`).
* `syncOne` deletes whatever row lies at the path of a missing file, also one of another
  source; it indexes a skill in a directory that a scan skips; and it leaves a skill alone
  when its test file cannot be read, where a scan updates it (`WatchSync.JobsEqualRescan`;
  `LostHappens`, `ExtraHappens` and `StaleHappens` show each).
* The name and the description of a skill are not part of the fingerprint
  (`Fingerprint.SkillSectionSees`).
* An archive can be accepted and never install, exactly when a file lies below a directory named
  like the lock or the archive (`PackArchive.Disk.Stage`, `AcceptedButNotInstallable`), and a
  pack that installs can fail validation, exactly when it needs too many entries
  (`PackArchive.InstalledValidates`, `InstallsButNeverValidates`).
* A pattern with two runs of double-star segments can lose forms, because the leftmost segment is
  always dropped first. Adjacent segments lose nothing, in every pattern
  (`AgentScopes.AdjacentIsComplete`); two runs lose something unless every directory between them
  is a lone star (`AgentScopes.FormsCompleteExactly`, `LoneWildcardsExactly`).
* Ids of headings can collide. The section returned is then that of the first heading with the id
  whose own section holds no other (`Sections.Chosen`), which need not be the one listed
  (`Sections.CollidingIds`).

## Model

| member | source | states |
|---|---|---|
| Glob.SuperConsumesAnyPrefix | internal/registry/path.go:197-209 | the modelled matcher: `**` stands for any run of characters, slashes included |
| Glob.StarConsumesWithinSegment | internal/registry/path.go:197-209 | a lone `*` stands for a run inside one path segment |
| Glob.LiteralMatchesItself | internal/registry/path.go:197-209 | a pattern without wildcards matches exactly its own text |
| PathIndex.PathPrefixes | internal/registry/path.go:54-68 | the keys looked up for a path are exactly the path and the directories above it, each with its slash |
| PathIndex.CutAtSlash | internal/registry/path.go:54-68 | every directory prefix of a joined path is a join of its leading components |
| PathIndex.PrefixHit | internal/registry/path.go:19-47 | a literal base followed by `/**` is found through its key exactly when the glob matches |
| PathIndex.ScanIsGlob | internal/registry/path.go:197-209 | the scan of a scope is the glob itself, on every path |
| PathIndex.GlobPrefixIsSafe | internal/registry/path.go:41-46 | the prefix stored for a glob is its longest literal directory, and a lookup that compares prefixes first never loses a match |
| PathIndex.RowHitExactly | internal/registry/path.go:19-140 | for every scope row, migrated ones included, and every path: the lookup answers what the matcher answers for the glob, plus, for a literal scope ending in a slash, everything below it |
| PathIndex.IndexAgreesUnlessDirectory | internal/registry/path.go:19-140 | index and glob agree on all paths if and only if the row is not such a directory-style literal |
| Order.TextLeExactly | internal/registry/registry.go:262-277 | the order of listed paths is bytewise: a prefix first, otherwise the first difference decides |
| Registry.Registry.InsertSkill | internal/registry/registry.go:167-237 | upsert by path: the entry is replaced, its test rows are kept, no other entry changes, ids stay unique and every child row keeps an owner |
| Registry.Registry.DeleteSkillByPath | internal/registry/registry.go:240-253 | removes exactly the entry at the path with all its child rows; a missing path changes nothing |
| Registry.Registry.DeleteTestsForSkill | internal/registry/registry.go:256-259 | removes the test rows of one skill and nothing else |
| Registry.Registry.InsertTestRow | internal/registry/registry.go:280-288 | appends one test row to one skill and changes nothing else |
| Registry.Registry.PathsBySource | internal/registry/registry.go:262-277 | lists the paths of one source type, each once, in order |
| Registry.Registry.Query | internal/registry/registry.go:405-489 | the intersection of the topic, tag and package id sets is one condition per skill; no filter selects nothing |
| Registry.Registry.QueryByPath | internal/registry/path.go:75-155 | each skill with a row the index hits, once, in path order |
| Registry.IndexHitExactly | internal/registry/path.go:75-155 | per skill: the index selects what a scan of all scopes selects, plus skills that name a directory above the path |
| Registry.IndexEqualsScan | internal/registry/path.go:75-155 | for one path, index and scan select the same skills if and only if every skill naming a directory above it also matches it otherwise |
| Registry.OwnersOfAllExactly | internal/registry/registry.go:341-392 | counting distinct labels finds the owners of all labels if and only if no label is repeated in the request |
| Registry.FilterMeaning | internal/registry/registry.go:405-489 | the three id sets, read as conditions on one skill |
| Registry.CollectIds | internal/registry/path.go:75-155 | one pass over the scope rows adds exactly the owners of hit rows to the growing id set |
| Registry.Narrow | internal/registry/registry.go:437-475 | deleting the candidates a filter lacks leaves the intersection |
| Base64.RoundTrip | internal/capability/ref.go:112-113 | decoding undoes unpadded base64url encoding (sections 3.5 and 5 of RFC 4648) |
| Base64.DecodeIsLenient | internal/capability/ref.go:126-133 | decoding alone accepts several texts for the same bytes, which is why the reference reader compares with the re-encoding |
| QueryEngine.StrategiesAnswerNaiveFilter | internal/query/query.go:232-301 | the four strategies equal one naive conjunction over all skills if and only if no topic or tag is repeated (or nothing matches) and, for a path alone, no directory-style scope over-answers |
| QueryEngine.ListingIsDetermined | internal/query/query.go:232-320 | the ordered listing is determined by registry and query, holds exactly the answer and each skill once |
| QueryEngine.CursorRoundTrip | internal/query/query.go:526-545 | a cursor whose offsets fit an int of 64 bits survives encoding and decoding |
| QueryEngine.LegacyCursor | internal/query/query.go:530-545 | a decimal skill-only cursor is read as that skill offset with no capability offset |
| QueryEngine.AtoiOfSigned | internal/query/query.go:537-541 | a sign is read, and a number beyond 64 bits is refused |
| QueryEngine.UnreadableCursorStarts | internal/query/query.go:530-545 | text that is no base64, and content that is neither two offsets nor a decimal one, start from the beginning |
| QueryEngine.JsonReaderExists | internal/query/query.go:526-545 | cursors are written unambiguously, so a reader that reads them back exists |
| QueryEngine.SupportedExactly | internal/query/query.go:222-227 | a query is supported if and only if the kind and the availability it asks for exist |
| QueryEngine.Engine.FollowCursor | internal/query/query.go:221-364 | on a fixed registry and catalog, executing the query at each next cursor, with any limits, collects exactly the listing and the matching capabilities from the first cursor on, each once; all of them from the empty cursor |
| QueryEngine.FilterByPath | internal/query/query.go:727-736 | keeps, in order, the skills with a scope that matches the path |
| QueryEngine.Engine.ClassicSkills | internal/query/query.go:258-275 | topics, tags, package and path select the conjunction of those filters |
| QueryEngine.Engine.SearchSkills | internal/query/query.go:275-301 | search results are narrowed in search order; an empty intersection stays empty |
| QueryEngine.Engine.SelectSkills | internal/query/query.go:232-301 | whichever strategy fits the filters, the result is the one listing of the answer |
| QueryEngine.Engine.Execute | internal/query/query.go:221-370 | unsupported if and only if kind or availability do not exist; the vocabulary if and only if none of the eight filter fields is set; otherwise no match, or the page of both streams that the cursor resumes, with counts and next cursor, at most the limit (eight by default, twenty at most) of each; capabilities are asked for as soon as path, search, server, kind or availability is set |
| QueryEngine.Engine.BuildPage | internal/query/query.go:320-364 | the windows of both streams and the cursor that continues them |
| UpdateCheck.DueAgainWithinADay | internal/updatecheck/check.go:257-259 | whatever is stored, a check is due now or from a day and a minute on |
| UpdateCheck.RetryAt | internal/updatecheck/sources.go:49-63 | the latest of the times that the headers ask for, or a day from now when that is earlier |
| UpdateCheck.RetryHonoursHints | internal/updatecheck/sources.go:49-63 | the same for the function that the protocol steps use: every hint is honoured up to one day, and the time is one of the hints or the cap |
| UpdateCheck.RunKeepsInv | internal/updatecheck/check.go:200-255 | over every interleaving of processes, crashes and failed writes the lease, the cache and the attempt log stay consistent |
| UpdateCheck.ConsecutiveAttempts | internal/updatecheck/check.go:200-259 | over every run, consecutive attempts are closer than an hour, or than a day after a stored success, if and only if the later reading lags behind the stored schedule |
| UpdateCheck.AttemptsAreSpaced | internal/updatecheck/check.go:200-259 | over every run, attempts with no lagging reading in between are an hour per attempt apart, and a day after a stored success |
| UpdateCheck.SteadyClocksSpaceAttempts | internal/updatecheck/check.go:200-259 | the same in clock readings alone: it is enough that each process reads its clock no more than a minute behind the readings that shaped the schedule before it |
| UpdateCheck.LastGoodResultSurvives | internal/updatecheck/check.go:160-255 | failures, refusals and crashes leave the last stored result in the cache, and at most one process holds the lease |
| UpdateCheck.NextAttemptWindow | internal/updatecheck/check.go:257-259 | exactly when the next attempt is possible after a success, a failure and a retry hint |
| UpdateCheck.WholeRound | internal/updatecheck/check.go:200-255 | what a whole check leaves in the cache, whatever its outcome, whenever its reply is read and whether or not its last write lands |
| UpdateCheck.UnwrittenBackoff | internal/updatecheck/check.go:224-233 | a backoff that cannot be written ends the check before any request and leaves no trace |
| UpdateCheck.LeaseTaken | internal/updatecheck/check.go:205-215 | a process that finds the lease taken cannot go on and gives up without a trace |
| UpdateCheck.AfterFailure | internal/updatecheck/check.go:229-257 | after a failed check at t the next process reserves if and only if it reads t plus an hour or later, or more than five minutes before t |
| UpdateCheck.AfterSuccess | internal/updatecheck/check.go:229-257 | after a stored success at t, if and only if it reads t plus a day or later, or more than a minute before t |
| UpdateCheck.AfterRetry | internal/updatecheck/check.go:229-257 | after a refusal at t whose hints come to `at`: if that is beyond the hour and could be stored, the next process reserves if and only if it reads `at` or later, or a day and a minute before `at`, or five minutes before t; otherwise as after a failure |
| UpdateCheck.CrashResetsSchedule | internal/updatecheck/check.go:217-259 | for all readings: a request, a crash that reads early, and a second request form a run if and only if each reading is due by the schedule before it |
| UpdateCheck.RequestsCanBeClose | internal/updatecheck/check.go:217-259 | two requests any distance apart, with a crashing process in between |
| WatchJobs.StepKeepsInv | internal/watch/watch.go:292-318 | each statement of scheduling, firing, finishing and disarming keeps the job counter equal to armed timers plus running callbacks, and each armed timer reachable through its key |
| WatchJobs.RunKeepsInv | internal/watch/watch.go:161-174 | the counter balances in every interleaving and never goes negative |
| WatchJobs.EveryRun | internal/watch/watch.go:155-174 | with the mutex free every armed timer is its key's pending entry; none is armed right after a disarm; the counter is zero exactly when nothing is armed or in flight |
| WatchJobs.LastScheduleFires | internal/watch/watch.go:284-318 | the timer of a key's last schedule stays armed until its callback begins, unless a disarm stops it |
| WatchJobs.WaitingEnds | internal/watch/watch.go:97-101 | the wait of Close ends: a positive counter means some callback can step, and each step uses up one of finitely many |
| WatchJobs.Watcher.ScheduleKey | internal/watch/watch.go:292-302 | reuses the job of a timer it stops, adds one otherwise; equals the three scheduling steps |
| WatchJobs.Watcher.StartJob | internal/watch/watch.go:304-318 | starts one armed timer for the key |
| WatchJobs.Watcher.DisarmLocked | internal/watch/watch.go:161-174 | equals a disarm that stops the pending timers in some order, and leaves none armed |
| WatchJobs.Watcher.DetachCallback | internal/watch/watch.go:306-314 | a callback removes the pending entry only if it is its own |
| WatchStamp.StampTracksWrites | internal/watch/watch.go:408-431 | the stamp differs from the files exactly when some write has not been noted, and an own write is unnoted only while it is in progress |
| WatchStamp.WritingAndArmed | internal/watch/watch.go:402-431 | writing means more writes begun than ended, armed means not disarmed since the last arming |
| WatchStamp.RearmsExactly | internal/watch/watch.go:421-431 | a watcher rearms if and only if none of its own writes is under way and it is disarmed or another process wrote after the last noted stamp |
| WatchStamp.ForeignWriteBracketed | internal/watch/watch.go:408-431 | a foreign write bracketed by an own write goes unnoticed, one after it does not |
| WatchSync.ApplySkillFiles | internal/watch/watch.go:543-600 | upsert, delete the test rows, insert the scenarios: the entry becomes the file's, nothing else changes |
| WatchSync.SyncOne | internal/watch/watch.go:326-349 | deletes the row of a missing file, leaves an unreadable or unowned one alone, replaces the entry otherwise |
| WatchSync.ForgetMissing | internal/watch/watch.go:351-377 | deletes exactly the agent rows at or below the directory whose file is gone |
| WatchSync.SyncDiscovered | internal/watch/watch.go:379-406 | upserts every discovered skill and, after a scan without errors, deletes the agent rows it did not see |
| WatchSync.RunJobsAt | internal/watch/watch.go:326-377 | order and repetition of jobs do not matter: each row ends up as its own jobs say |
| WatchSync.RescanBringsInSync | internal/watch/watch.go:379-406 | an error-free scan brings any rows in line with the tree and leaves rows of other sources at other paths alone |
| WatchSync.JobsEqualRescan | internal/watch/watch.go:326-406 | jobs that cover all changes leave exactly what a rescan leaves, if and only if no job deletes a row the scan would keep, indexes a file in a skipped directory, or skips a skill whose test file broke |
| WatchSync.VisibleExactly | internal/scanner/agent_skills.go:88-233 | a scan finds exactly the files named SKILL.md below the skills directory of one of the six tools, with no skipped directory on the way |
| WatchSync.AnchorExactly | internal/scanner/agent_skills.go:222-233 | the owner of a skill file is the directory in front of its first skills directory of a tool |
| WatchSync.UnderExactly | internal/watch/watch.go:363-377 | a directory is forgotten with everything below it and nothing beside it, component by component |
| WatchSync.SyncedRowHolds | internal/watch/watch.go:543-600 | a synced row holds the file's text, description, topics, tags and scopes, its stated name or else that of its directory, and one test row per scenario |
| WatchSync.LostHappens | internal/watch/watch.go:326-349 | at the path of any skill of a tool: a job on a missing file deletes a row of another source that a scan keeps |
| WatchSync.ExtraHappens | internal/watch/watch.go:194-258 | a skill created inside a directory of a skipped name below a watched root: the walk over a new directory does not skip its own start, so a job indexes what a scan leaves out |
| WatchSync.StaleHappens | internal/watch/watch.go:326-349 | at the path of any skill of a tool: a job leaves the row of a skill whose test file broke, where a scan replaces it |
| WatchSync.ForeignRowsUntouched | internal/watch/watch.go:326-377 | rows of other sources at paths no job names survive every job |
| WatchSync.ScenariosReadBack | internal/watch/watch.go:560-600 | the scenarios of a parsed test file can be read back from the rows stored for its skill |
| Fingerprint.ByteBuffer.WriteField | internal/registry/signature.go:118-123 | appends length, colon, text and semicolon |
| Fingerprint.ByteBuffer.WriteSection | internal/registry/signature.go:125-156 | appends a section tag and every column of every row |
| Fingerprint.ByteBuffer.WriteTables | internal/registry/signature.go:21-52 | appends the sections in their fixed order |
| Fingerprint.FieldIsPrefixCode | internal/registry/signature.go:118-123 | a field can be read off the front of any text, whatever it contains |
| Fingerprint.BufferInjective | internal/registry/signature.go:21-260 | equal buffers mean equal rows in every section |
| Fingerprint.OrderIsDetermined | internal/registry/signature.go:125-260 | under the unique constraints the ordered rows depend only on the multiset of rows, not on insertion order |
| Fingerprint.FingerprintExactly | internal/registry/signature.go:21-260 | two registries write the same buffer if and only if their skill, topic, tag, scope, test and capability rows agree as multisets; for well-formed tables, if and only if they hold the same paths and, for each, skills that agree in all but name, description and the order of their topics, tags, scopes and tests |
| Fingerprint.StoredWellKeyed | internal/registry/signature.go:55-260 | in every section the columns of ORDER BY decide the row; assumed only for capabilities, where it is the unique constraint |
| Fingerprint.SameViewSameRows | internal/registry/signature.go:125-260 | ids and insertion order do not show: tables with the same view store the same rows |
| Fingerprint.SameRowsExactly | internal/registry/signature.go:125-260 | tables store the same rows if and only if their skills agree in that way |
| Fingerprint.SameBufferExactlyWhenSameRows | internal/registry/signature.go:21-260 | the same for any tagged sections whose ordering columns decide the row |
| Fingerprint.SectionsOfRegistry | internal/registry/signature.go:21-260 | the tags, column counts and orders of the seven sections; all but skills and capabilities order by every column |
| Fingerprint.SkillSectionSees | internal/registry/signature.go:125-156 | a skill's hashed columns determine it up to name and description, which are not hashed |
| References.VerifySealed | internal/capability/ref.go:117-148 | verifying a sealed payload judges its claims |
| References.OnlySealedPasses | internal/capability/ref.go:117-133 | whatever is not rejected as invalid is the one canonical text of its payload |
| References.AcceptedExactly | internal/capability/ref.go:117-148 | a reference is accepted with some claims if and only if it is the text of a payload that reads as them, none of their fields is missing, and they have not ended |
| References.ExpiredExactly | internal/capability/ref.go:117-148 | a reference is refused as expired if and only if it would have been accepted earlier and its claims have ended |
| References.IssuedExactly | internal/capability/ref.go:80-114 | a reference is issued if and only if the capability is fully named, its schemas can be read, and view and context are named |
| References.SamePayloadSameReference | internal/capability/ref.go:126-133 | two references that are not invalid and carry the same payload are the same string |
| References.VerifyAfterIssue | internal/capability/ref.go:80-148 | Verify undoes Issue: the verdict at any time is decided by the claims alone, with the exact conditions |
| References.Lifetime | internal/capability/ref.go:94-147 | a reference never outlives its TTL, never ends a whole second early, and lives at all from a TTL of one second on |
| Broker.Evaluate | internal/brokerruntime/runtime.go:108-121 | allows if and only if a project binding covers the capability and it is ready |
| Broker.DefinitionExactly | internal/broker/broker.go:277-305 | a definition passes if and only if it is that of the record the view sees, its own before a public one, with the binding and digest of the claims and its present availability, stale staying stale; which of not found and changed it is otherwise |
| Broker.CallPassesExactly | internal/broker/broker.go:277-362 | a call passes if and only if the claims are accepted for this context and view, the served record so defines the capability and is ready, the arguments fit, and a project binding covers it while it is still ready |
| Broker.ReferenceRefusedExactly | internal/broker/broker.go:277-290 | which refusal a reference meets: invalid, expired, another context, another view |
| Broker.CallRefusedExactly | internal/broker/broker.go:320-352 | which refusal a defined capability meets: not ready, unfit arguments, policy, in this order |
| Broker.Broker.QueryPage | internal/broker/broker.go:231-273 | issues the references of one page in order, or reports failure after those issued before it; everything opened stays justified |
| Broker.PageReferences | internal/broker/broker.go:231-273 | a page has at most its limit of what was found, is complete if and only if every capability on it can be prepared, and its references are theirs, in order; none without a context or a view |
| Broker.Broker.Call | internal/broker/broker.go:320-362 | a connector is opened only when all checks passed, each in the environment of its own moment, and once; given unforged references, everything ever opened is justified by something handed out |
| Broker.CallIsJustified | internal/broker/broker.go:320-362 | what a passing call opens is justified by a reference handed out, whatever environments its three checks saw |
| Broker.AcceptedWasIssued | internal/broker/broker.go:277-290 | with an ideal authentication code, accepted claims are claims issued before |
| Broker.StepKeepsInv | internal/broker/broker.go:231-362 | discovery, change, verification, resolution and invocation keep every open call backed by an issued reference |
| Broker.EveryOpenIsJustified | internal/broker/broker.go:231-362 | over every run, each opened connector belongs to a reference issued earlier in the same view and context, agreeing in every routing field and in digest, verified within its TTL, and to a record that had not expired and was ready when resolved, and passed readiness, argument and policy checks in that call |
| Broker.IssuedInRun | internal/broker/broker.go:231-273 | a run hands out the pages of its discoveries, each at the time it saw, in order, and nothing else |
| Broker.EachCheckOnce | internal/broker/broker.go:320-362 | within a run no check of a call is made twice, and a refused or invoked call is over |
| Broker.CallIsARun | internal/broker/broker.go:320-362 | a passing call in any three environments is a run in which catalog, clock and readiness change between its checks |
| PackArchive.SafeNameExactly | internal/packregistry/registry.go:268-272 | the name check accepts exactly the downward paths of plain components without backslash, colon or NUL |
| PackArchive.EntryOkExactly | internal/packregistry/registry.go:252-303 | which entries pass: the root and downward directories without content, and downward text files of their stated size under a name that is not reserved |
| PackArchive.FilesOfExactly | internal/packregistry/registry.go:246-308 | the files are the regular entries, each under its path, and nothing else |
| PackArchive.TotalExactly | internal/packregistry/registry.go:293-297 | the total that is bounded is the number of bytes of all files together |
| PackArchive.HasAncestor | internal/packregistry/registry.go:318-322 | the parent walk ends and finds a file above the path if there is one |
| PackArchive.CheckTree | internal/packregistry/registry.go:314-331 | accepts exactly when no file lies above another file, nor at or above a listed directory |
| PackArchive.Extract | internal/packregistry/registry.go:232-339 | accepts a stream if and only if its entries satisfy the declared rules, only padding follows them and it expands to no more than 64 MiB; then it returns its regular files by name |
| PackArchive.AcceptableAdmits | internal/packregistry/registry.go:246-295 | every entry of an acceptable archive passes where it stands, so stopping at a refusal is right |
| PackArchive.Disk.MkdirAll | internal/packregistry/registry.go:350-353 | makes the missing directories unless something else is in the way |
| PackArchive.Disk.WriteNew | internal/packregistry/registry.go:361-372 | creates a file that must not exist in a directory that must |
| PackArchive.Disk.WriteTree | internal/packregistry/registry.go:350-359 | in every iteration order: succeeds in an empty directory if and only if no file lies above another, and then leaves exactly those files and their directories |
| PackArchive.Disk.Stage | internal/packregistry/registry.go:435-449 | stages tree, lock and archive if and only if, besides, no file lies below a name reserved for the evidence |
| PackArchive.Store.Install | internal/packregistry/registry.go:408-452 | publishes a staged tree under a free name or changes nothing; installed packs are never touched |
| PackArchive.Disk.Walk | internal/packregistry/registry.go:562-605 | accepts an installed tree if and only if it is small enough, has no links or special files, and its other regular files are the expected ones in name and bytes |
| PackArchive.Disk.Validate | internal/packregistry/registry.go:506-607 | returns the verified files exactly for such a tree with bounded evidence from which files derive |
| PackArchive.AcceptedTreeCanBeWritten | internal/packregistry/registry.go:232-372 | an accepted archive always gives a tree that can be written |
| PackArchive.AcceptedButNotInstallable | internal/packregistry/registry.go:280-284 | an archive that is accepted although it can never install: a file below a directory named like the lock |
| PackArchive.InstalledValidates | internal/packregistry/registry.go:408-607 | a freshly installed tree validates if and only if files, directories and three more entries stay within 8192 |
| PackArchive.InstallsButNeverValidates | internal/packregistry/registry.go:408-607 | an accepted archive that installs and never validates: one file under 8188 or more directories |
| PackEvidence.FindSigned | internal/packregistry/registry.go:529-538 | finds the one signed entry of an identity; two are as bad as none |
| PackEvidence.CheckPin | internal/packregistry/registry.go:522-551 | a lock is good exactly for the signed, unrevoked pin that it repeats, under the directory name of that pin |
| PackEvidence.DeriveFiles | internal/packregistry/registry.go:522-561 | files derive exactly from a good lock and the archive that its pin describes |
| PackEvidence.DerivesExactly | internal/packregistry/registry.go:506-561 | files derive if and only if the lock repeats the only signed entry of its identity, valid, unrevoked and under its directory name, and the archive has the pinned size and digest, is accepted and names the pinned pack |
| PackEvidence.OnlySignedContent | internal/packregistry/registry.go:485-561 | whatever a lock says, files derive only from an archive that a signed, unrevoked pin pins |
| PackEvidence.SamePinSameContent | internal/packregistry/registry.go:506-607 | two validated trees whose pins have the same digest hold the same files, whatever else they contain |
| PackEvidence.Resolve | internal/packregistry/registry.go:141-183 | resolves a name to a newest stable version or to nothing; an older one never stands in for one that is revoked or badly pinned |
| AgentScopes.AnchorLength | internal/scanner/agent_skills.go:222-233 | the owning directory is what precedes the first skills directory of an agent tool |
| AgentScopes.ExpandEmptyDoubleStar | internal/scanner/agent_skills.go:295-312 | the loop ends and yields the pattern and its shorter forms |
| AgentScopes.FormsNotEmpty | internal/scanner/agent_skills.go:304-308 | a pattern never leaves an empty form |
| AgentScopes.FormsAreSound | internal/scanner/agent_skills.go:290-312 | every stored form matches only what the pattern matches when a double-star segment may stand for no directory |
| AgentScopes.OneRunIsComplete | internal/scanner/agent_skills.go:290-312 | with one run of adjacent segments the forms match exactly that, on every path, whatever surrounds the run |
| AgentScopes.AdjacentIsComplete | internal/scanner/agent_skills.go:290-312 | for every pattern whose double-star segments, if any, all stand next to each other, the forms match exactly that |
| AgentScopes.FormsCompleteExactly | internal/scanner/agent_skills.go:290-312 | without wildcards up to the second run, the forms are complete if and only if there is no second run |
| AgentScopes.TwoSegmentsExactly | internal/scanner/agent_skills.go:290-312 | two segments with wildcard-free text between them lose nothing if and only if they are adjacent |
| AgentScopes.TwoSegmentExamples | internal/scanner/agent_skills.go:290-312 | `**/**/a` loses nothing and `**/a/**/b` does |
| AgentScopes.LoneWildcardsExactly | internal/scanner/agent_skills.go:290-312 | with nothing but `?` and lone stars in named directories up to the second run, two runs lose nothing if and only if every directory between them is a lone star; further runs never make up for any other directory |
| AgentScopes.QualifyAgentGlobs | internal/scanner/agent_skills.go:258-288 | places each glob under the anchor and keeps each form once, in order |
| AgentScopes.PlacedExactly | internal/scanner/agent_skills.go:269-288 | what each placed glob matches, and which are dropped, below an anchor and without one |
| AgentScopes.QualifiedExactly | internal/scanner/agent_skills.go:258-288 | the scopes are the nonempty forms of the placed globs, each once |
| AgentScopes.DefaultScopeReaches | internal/scanner/agent_skills.go:246-256 | stated globs are placed under the anchor; without globs a skill applies everywhere, or everywhere below its anchor |
| AgentScopes.ScopesMatchOnlyWithinAnchor | internal/scanner/agent_skills.go:258-288 | below a wildcard-free anchor no resulting scope matches a path outside it |
| AgentScopes.LiteralGlobsKept | internal/scanner/agent_skills.go:279-286 | a wildcard-free glob is dropped if and only if it matches nothing within the anchor |
| Sections.HeadingReadsBack | internal/query/sections.go:8 | a heading written as hashes, a blank, a title and an optional closing reads back |
| Sections.HeadingLine | internal/query/sections.go:8-56 | a line written that way is no fence and is classified by its level, slug and title |
| Sections.HeadingExactly | internal/query/sections.go:8-33 | a line is read as a heading if and only if the expression splits it, and as the split that takes hashes and blanks greedily and the title lazily |
| Sections.FenceExactly | internal/query/sections.go:17-20 | a fence is three backquotes or tildes behind nothing but white space |
| Sections.SlugKeepsWords | internal/query/sections.go:43-56 | a slug has the words of its title, in lower case and in order, and only dashes between them |
| Sections.Slug | internal/query/sections.go:43-56 | lower case, runs of other characters as one dash, trimmed |
| Sections.FormatInt | internal/query/sections.go:60-72 | writes the decimal digits backwards into a fixed buffer |
| Sections.MarksExactly | internal/query/sections.go:12-41 | the scan finds exactly the heading lines outside fences, in order, each with its slug numbered by the earlier uses of that slug |
| Sections.ListSections | internal/query/sections.go:12-41 | lists the first eight headings with id, shortened title and level |
| Sections.WidthExactly | internal/query/query.go:444-453 | lengths are bytes of UTF-8 (section 3 of RFC 3629) |
| Sections.CompactTextExactly | internal/query/query.go:444-453 | a title within the limit stays, of any other the most whole characters that fit are kept before an ellipsis |
| Sections.SelectSection | internal/query/sections.go:76-111 | finds an id if and only if some heading carries it, and returns the lines from the chosen heading to the next one of the same or a shallower level |
| Sections.FindExactly | internal/query/sections.go:76-111 | the walk over the headings finds the chosen one and the end of its section |
| Sections.ChosenIsUnique | internal/query/sections.go:76-111 | at most one heading is chosen: the first with the id whose section holds no other |
| Sections.ListedIdsAreFound | internal/query/sections.go:12-111 | every listed id has its chosen heading |
| Sections.CollidingIds | internal/query/sections.go:12-111 | in the three-line document `# a`, `# a`, `## a 1` the ids collide so that the listed heading is not the chosen one |
| Scenarios.ParseTestContent | internal/validator/validator.go:127-222 | the line loop computes header, complete scenarios and issues |
| Scenarios.LoadAfterStore | internal/registry/registry.go:280-288 | a scenario survives its text columns if and only if skill names are comma-free, the list is not one empty name, and criteria are at least one newline-free line |
| Scenarios.KeptScenariosSurvive | internal/registry/registry.go:602-626 | for every test file, what the parser keeps is loaded unchanged after it is stored |
| Scenarios.NoIssuesExactly | internal/validator/validator.go:195-243 | no issue is raised if and only if every section heading yields a scenario, there is one, and the header names the tested file |
| Scenarios.IssuesExactly | internal/validator/validator.go:195-243 | which issues there are: one per missing field under the section's name, and one each for the header and for a file without scenarios |
| Scenarios.ParseAfterWrite | internal/validator/validator.go:127-222 | a file in the documented layout, skill names separated by a comma and a blank, parses back to exactly its scenarios, in order |
| Activation.ValidExactly | internal/packs/pack.go:273-294 | a condition is valid if and only if nothing in it is deeper than 32 levels and everything has either children or leaf fields, not both |
| Activation.LeafExactly | internal/packs/pack.go:628-674 | a leaf can be evaluated if and only if its patterns compile and its detector is known, and matches if and only if it has a file, an active detector or a declared dependency |
| Activation.EvaluateExactly | internal/packs/pack.go:615-674 | a nested condition matches if and only if all its leaves hold, and gathers the files of all of them |
| Activation.ActivateExactly | internal/packs/pack.go:580-612 | conditions that do not all hold give no scope; otherwise the scopes of the mapped files, or of the boundary when asked for or when there are none |
| Activation.FileScopeReaches | internal/packs/pack.go:750-779 | which paths the scope of a matched file reaches, for each kind of scope |
| Activation.ContextScopeReaches | internal/packs/pack.go:782-803 | which paths the scope of a boundary reaches, for each kind of scope |
| Activation.FlatteningPreserves | internal/packs/pack.go:615-638 | a nested condition and its flat form have the same verdict, error and ordered files |
| Activation.FlatFormIsValid | internal/packs/pack.go:273-294 | a valid condition has a valid flat form, however deep it was |
| Activation.FlatFormActivatesAlike | internal/packs/pack.go:580-612 | activation cannot tell a valid condition from its flat form |
| Activation.ScopeMatchesFile | internal/packs/pack.go:750-779 | every scope mapped from a file matches that file |
| Activation.ScopesCoverFiles | internal/packs/pack.go:606-611 | every file of the evidence is matched by one of the scopes it led to |
| Activation.AppendUnique | internal/packs/pack.go:806-819 | appends the items that are neither empty nor there already |
| Activation.CollectScopes | internal/packs/pack.go:606-611 | collects the scopes of all matches, each once |
| CanonicalJson.LastMemberWins | internal/capability/model.go:147-163 | of several members with one name the last one counts |
| CanonicalJson.CanonicalIdempotent | internal/capability/model.go:147-170 | canonical form taken twice is canonical form taken once |
| CanonicalJson.CanonicalExactly | internal/capability/model.go:147-170 | two documents share it if and only if they decode to the same value |
| CanonicalJson.CanonicalIsSorted | internal/capability/model.go:164-168 | members of canonical objects are in ascending order without repeats |
| CanonicalJson.PayloadExactly | internal/capability/model.go:118-145 | the digest payload distinguishes kind, name and what the schemas mean, and nothing else; no schema means null |
| CanonicalJson.ReorderingKeepsPayload | internal/capability/model.go:118-145 | reordering object members (section 4 of RFC 8259, distinct names) at any depth leaves the payload unchanged |

## Left out

- Glob brackets and braces, and the matcher library's internals: `Glob.Match` is the modelled matcher, so all statements about scopes are about patterns without `[ ] { }`.
- SQLite itself, SQL transactions and I/O errors: tables are values and an operation either happens or not.
- Full-text ranking and tokenisation: the search result is an ordered list of paths.
- Capability tables and their path filter: the catalog is an ordered list, and ties in its order are not modelled.
- QueryEngine.Engine.Execute: does not model vocabulary contents, facets, excerpts, section previews or the suggestions of a no-match response.
- QueryEngine.CursorRoundTrip: takes JSON reading as a parameter that reads a printed cursor back when its offsets are below 2^63, as ints of the program are; `JsonReaderExists` shows that such readers exist.
- UpdateCheck.ConsecutiveAttempts: is about backoff records in an intact cache file, of which requests are a subset, and assumes that a retry hint was read within an hour and a minute of the attempt; the request timeout is below a second.
- UpdateCheck.AttemptsAreSpaced: like `SteadyClocksSpaceAttempts` gives one direction, because attempts far apart in the log can be apart in time although a reading between them lags.
- UpdateCheck.LastGoodResultSurvives: HTTP, the release service, version comparison and the wording of notices are not modelled.
- WatchJobs.Watcher.StartJob: the callback it installs is not part of the method; its statements are the steps Fire, Detach and Finish.
- WatchSync.JobsEqualRescan: the tree does not change while the jobs run, and symbolic links are not modelled.
- WatchSync.SyncDiscovered: database errors halfway through an update, and the order in which a directory walk reports files.
- The watcher's event loop, the currency of watches between scan and watch, and quiescence after Close: the event loop is not joined.
- WatchStamp.RearmsExactly: assumes that every write gives the database files a new stamp.
- Fingerprint.FingerprintExactly: collisions of SHA-256; the capability tables are given by their rows and their unique constraint.
- References.VerifyAfterIssue: assumes that the claims survive JSON encoding, which needs valid UTF-8.
- Broker.EveryOpenIsJustified: assumes an ideal message authentication code; telemetry, transports, results and multi-round input are not modelled.
- Broker.Broker.Call: does not model the choice of connector method or what the connector returns.
- PackArchive.Extract: gzip and tar byte formats are not modelled, nor which error is reported first.
- PackArchive.Disk.Validate: races with a local writer are not modelled; where the files come from is in `PackEvidence`.
- PackArchive.Store.Install: a competing process that publishes the same name between the check and the rename, and links in the installation path.
- PackEvidence.DeriveFiles: the checks of names, digests and sizes inside one pin are one predicate.
- AgentScopes.LoneWildcardsExactly: says nothing about three runs with only lone stars between the first two, nor about a double star inside a longer name, as in `a**`, or an empty name beside wildcards, in front of the second run; the forms are sound there too (`FormsAreSound`).
- Activation.FlatFormActivatesAlike: detector definitions and their evaluation are given as facts, and file discovery as a function from patterns to paths.
- CanonicalJson.CanonicalIdempotent: number and string tokens keep their text, and printing of a canonical document is taken to be injective.
- OAuth, HTTP and stdio transports, credential helpers, keychains and package acquisition: network and process I/O.
- Commands, server wiring, styling, generated documentation, telemetry and diagnostics: presentation.
- Configuration validation, error codes and YAML frontmatter: single-branch checks or library behaviour.
