# Publoader: a verified model

Publoader runs untrusted extension workers against publisher sites, ingests what
they report, and uploads chapters to MangaDex. This Dafny project models the
parts where that is delicate and proves what they promise:

- **Series-map files** (`JsStrings`, `Sorting`, `JsonText`, `JsObjects`, `MapFile`,
  `MapReading`, `MapRoundTrip`, `MapOrder`, `MapAscending`, `MapLayout`, `MapText`,
  `MapStable`, `MapSync`, `MapGrouping`). The renderer, a JSON reader (string literals as in
  section 7 of RFC 8259), the reader of map rows, the detection of shape, indent
  and alignment, and the decision to write. Text is `seq<char>`, an object is the
  sequence of its own properties in `Object.entries` order (array indices first),
  lengths and `<` on strings are in UTF-16 code units, and `localeCompare` is an
  arbitrary total preorder.
- **Result ingestion** (`Policy`, `Ingest`, `IngestInvariant`, `IngestSafety`,
  `IngestExactness`, `IngestLeases`, `IngestAnswers`, `IngestRuns`). Jobs, leases, submissions and deliveries as a
  transition system: every database statement is one step, and deliveries can be
  repeated, overtaken or dropped between any two. `fail` keeps its two statements:
  the header of `src/core/store/jobs.ts` says that file has no read-then-write,
  the code does, and `IngestSafety.FailDecidesAsIfAtomic` shows why it is harmless.
- **Rate limiter** (`RateLimiter`), a class over real arithmetic with its cleanup loop.
- **Upload loops** (`Uploader`, `UploaderEffects`, `UploaderSafety`). Five drain loops and the
  housekeeping loop interleaving at their awaits. A claim is one statement but two
  steps: under READ COMMITTED it reads its snapshot, and locks one row later.
- **Guarded fetch** (`GuardedFetch`, `Politeness`): the redirect and retry loop, and
  the per-host slots.
- **Migration** (`Migration`): batches, inserts that skip duplicates, refresh, dry runs.
- **Scopes** (`Scopes`, `AdminAuth`), for any list of `area:verb` scopes.
- **Login** (`LoginState`, `DiscordLink`): the signed OAuth state (signature text as in
  section 5 of RFC 4648) and the accounts Discord identities reach.
- **Bundle cache** (`BundleCache`): racing and dying agents on one directory.

What the code does differently from its comments is kept as it is and stated as a
result, with the exact condition under which the documented behaviour holds:

- A pause gives an attempt back, so two leases share one idempotency key and the
  second holder's result is lost (`IngestRuns.PauseLosesResult`; exactly when a
  current holder commits: `IngestRuns.HolderCommitsExactlyWhen`).
- The policy is checked on the delivered envelope, but the first one recorded under
  the key is committed (`IngestRuns.UncheckedEnvelopeCommitted`; sound at every commit
  where the recorded envelope is the delivered one: `IngestExactness.CommittedWasChecked`).
- SUCCEEDED means COMMITTED step by step exactly when a delivery's key belongs to its
  own job (`IngestExactness.AgreementStep`; a run that breaks it:
  `IngestRuns.OtherJobCommitted`).
- A failure reported under a valid lease, and the slower of two copies in flight, are
  answered differently from what a later delivery is told (exactly when:
  `IngestAnswers.VerdictIsRepeated`, `IngestAnswers.RejectionIsRepeatedExactlyWhen`).
- The interlock that keeps two kinds of upload task off one chapter reads other rows as
  of the claim's snapshot, so two claims that overlap can lease both
  (`UploaderSafety.DeleteAndCardAtOnce`; exactly when a claim is overtaken:
  `UploaderSafety.NoChapterTwiceExactlyWhen`).
- The shrink guard is described as bounding deletions; it bounds deletions net of
  additions (`MapSync.ShrinkGuardIsNet`).
- A layout without indent, a padded nested file, or an aligned flat file with too
  unevenly escaped keys is reformatted by the next sync
  (`MapStable.RerenderedIsSame`, `MapSync.UnchangedExactlyWhenNothingChanged`).
- Forgetting idle rate-limit buckets admits more than capacity and refill unless a bucket
  refills in the time it takes to be forgotten; the two magic-link limiters and the
  install limiter do not (`RateLimiter.NominalBoundExactlyWhen`, `RateLimiter.LimitersOfTheCore`,
  `RateLimiter.InstallLimiter`).
- A drain pass that throws loses its counts (`UploaderSafety.ReportsAddUpExactlyWhen`),
  and a completion that lost its lease is counted all the same
  (`UploaderSafety.CompletionCountsEitherWay`).
- One-shot bodies are kept from retries after faults but are sent again after a 429 and
  by redirects (exactly when: `GuardedFetch.OneShotBodySentAgain`).
- `--refresh` is documented to rewrite the unavailable mirror; that pass never rewrites
  a row (`Migration.SeenPassKeepsAll`). The dry runs of `uploaded`, `edited` and the queues
  predict the real count only when no key repeats (`Migration.DryRunPredictsExactlyWhen`,
  `Migration.OneByOneDryRunPredictsExactlyWhen`).
- A malformed on-behalf-of header does not refuse the request; the client token's own
  scopes apply (`AdminAuth.MalformedHeaderIsNoHeader`, `AdminAuth.Request.Authenticate`).
- A verified address takes over an account that is linked to another Discord id
  (`DiscordLink.EmailMatchTakesOver`).

## Model

| member | source | states |
|---|---|---|
| MapFile.CompareIdsIsTotalOrder | src/core/mapsync/mapFile.ts:354-357 | For any collation that is a total preorder, the code-unit tie-break makes the id order total: connected, transitive, antisymmetric. |
| JsStrings.UnitLessIsLexicographic | src/core/mapsync/mapFile.ts:355 | `<` on strings is the lexicographic order of their UTF-16 code units, which is not that of their characters. |
| JsStrings.LengthIsUnits | src/core/mapsync/mapFile.ts:177-182 | Column widths count UTF-16 code units. |
| JsObjects.ArrayIndexExactlyWhen | src/core/mapsync/mapFile.ts:190-199 | The keys an object lists first are exactly the decimal numerals of the numbers below 2^32 - 1. |
| JsObjects.LastWriteWins | src/core/mapsync/mapFile.ts:115-131 | Filling an object keeps one member per key, with the value last written under it. |
| JsonText.ReadQuoted | src/core/mapsync/mapFile.ts:144-145 | Reading a string literal gives back the string it was escaped from, whatever text follows. |
| JsonText.ReadArray | src/core/mapsync/mapFile.ts:147-149 | Reading a one-line array of strings gives back its items. |
| JsonText.ReadsCodeUnits | src/core/mapsync/mapFile.ts:334-347 | A character is read from the escapes of its code units, one or a surrogate pair, with digits of either case. |
| JsonText.RefusesControl | src/core/mapsync/mapFile.ts:334-347 | A literal with a bare control character in it is no JSON, whatever surrounds it. |
| JsonText.EscapesAsLittleAsItCan | src/core/mapsync/mapFile.ts:144-145 | Exactly quotes, backslashes and control characters are escaped. |
| MapReading.ReadSerialised | src/core/mapsync/mapFile.ts:166-199 | The text of any printable document reads back member by member, nothing lost, added or reordered, for every indent and alignment. |
| MapRoundTrip.ReadRowsReadable | src/core/store/bundles.ts:277-311 | Whatever text is read, every row that comes out is normalised and has a lower-case uuid and a non-empty id. |
| MapRoundTrip.RenderThenRead | src/core/mapsync/mapFile.ts:112-199 | Rendering rows and reading the text gives exactly those rows, in either form, nested or flat, any layout, if and only if every row is one the reader can give back. |
| MapRoundTrip.UuidHasGroups | src/core/store/bundles.ts:250 | A title is a uuid only if it is five groups of hexadecimal digits with dashes between them. |
| MapRoundTrip.GroupsAreUuid | src/core/store/bundles.ts:250 | And any five such groups are one, in either case. |
| MapOrder.RenderDependsOnRows | src/core/mapsync/mapFile.ts:112-142 | Any permutation of the rows renders to the same characters. |
| MapAscending.DocumentAscends | src/core/mapsync/mapFile.ts:112-142 | Every object of the file ascends: titles and namespaces by code units, external ids by the collation with code units to break its ties, array indices first; and so do the ids of each title. |
| MapGrouping.GroupByTitle | src/core/mapsync/mapFile.ts:121-127 | The grouping loop gives every title its ids in row order, titles in the order they first occur. |
| MapGrouping.FlatTable | src/core/mapsync/mapFile.ts:115-131 | The two object-filling loops build the table the round-trip theorems are about. |
| MapGrouping.RenderMapFile | src/core/mapsync/mapFile.ts:112-142 | The renderer with its loops gives exactly the specified text. |
| MapLayout.DetectMapShape | src/core/mapsync/mapFile.ts:72-95 | The counting loops find the nesting and the majority form, flat votes and namespace votes apart. |
| MapLayout.ShapeByMajority | src/core/mapsync/mapFile.ts:72-95 | Arrays make a file inverted only as a strict majority of all votes; one namespace makes it nested; a document without a vote has no shape. |
| MapLayout.DetectLayout | src/core/mapsync/mapFile.ts:216-233 | The indent is the smallest lead, and keys count as aligned when leads differ and 98 of 100 end in one column. |
| MapLayout.CountBy | src/core/mapsync/mapFile.ts:235-239 | The tally maps every value that occurs to the number of its occurrences, and no other. |
| MapText.SerialisedKeyLines | src/core/mapsync/mapFile.ts:216-233 | The key lines detection finds in a rendered file are exactly those of its members, with their leads. |
| MapStable.IndentRedetected | src/core/mapsync/mapFile.ts:216-233 | An indent of at least one is always read back. |
| MapStable.AlignRedetected | src/core/mapsync/mapFile.ts:216-233 | Alignment of a flat file is read back exactly when something is padded and 98 of 100 keys grow alike when escaped. |
| MapStable.RerenderedIsSame | src/core/mapsync/mapFile.ts:166-233 | Rendering with the redetected layout gives the same characters if and only if the layout is one that survives. |
| MapSync.RowKeyInjective | src/core/mapsync/mapFile.ts:245-247 | Two rows share a key exactly when they are the same row. |
| MapSync.MissingMeansAbsent | src/core/mapsync/mapFile.ts:250-253 | A mapping is reported missing exactly when it is in one list and not in the other. |
| MapSync.MissingBalances | src/core/mapsync/mapFile.ts:250-253 | Deletions and additions account for the whole change in size. |
| MapSync.ParseMapText | src/core/mapsync/mapFile.ts:334-347 | Parsing gives the rows and the shape with the detected layout, or nothing when the text is not JSON. |
| MapSync.SyncTextIsStable | src/core/mapsync/service.ts:338-340 | Syncing the same rows, in any order, into a rendered file gives its own text exactly when its layout survives. |
| MapSync.UnchangedExactlyWhenNothingChanged | src/core/mapsync/mapFile.ts:290-308 | A rendered file is left alone if and only if the rows are the same and the layout survives. |
| MapSync.UnchangedMeansUpToDate | src/core/mapsync/mapFile.ts:290-308 | Whatever file is there, leaving it alone means it says what the database says. |
| MapSync.WrittenFileIsUpToDate | src/core/mapsync/service.ts:338-345 | A written file reads back as the database. |
| MapSync.EmptyDatabaseIsRefused | src/core/mapsync/mapFile.ts:310-316 | A database without mappings never empties a file that has some, forced or not. |
| MapSync.MissingFileIsSkipped | src/core/mapsync/mapFile.ts:295-302 | A file that is not there is never written. |
| MapSync.PlanExactlyWhen | src/core/mapsync/mapFile.ts:304-331 | When a file is unchanged, refused for emptiness, refused for shrinking or written; force lifts the shrink guard and nothing else. |
| MapSync.ShapelessFile | src/core/mapsync/service.ts:338-340 | A file that shows no shape is rewritten titles first, indented by four, and nested exactly for a namespace that has a name. |
| MapSync.ShrinkGuardIsNet | src/core/mapsync/mapFile.ts:317-329 | A write is refused for shrinking exactly when deletions exceed additions by more than half of the mappings. |
| MapSync.ShrinkGuardMissesReplacement | src/core/mapsync/mapFile.ts:273-329 | A rendered file of eight mappings or more, all gone from the database that holds at least half as many others, loses every one of them and is written. |
| MapSync.EightReplaced | src/core/mapsync/mapFile.ts:273-329 | Such as a title's eight ids given to another title, in any form and namespace. |
| Policy.MatchesHostByLabels | src/contracts/manifest.ts:205-208 | An allowed entry matches exactly the hosts whose dot-separated labels end with its own. |
| Policy.HostAllowedByLabels | src/contracts/manifest.ts:198-209 | A URL passes exactly when it parses and some allowed entry's labels are the last labels of its host. |
| Policy.ValidatePolicy | src/core/ingest/ingest.ts:138-239 | Nothing is reported exactly when every rule holds of every part of the envelope; what is reported is a rule it breaks. |
| Policy.HoldsUnlessBroken | src/core/ingest/ingest.ts:138-239 | The rules hold of an envelope exactly when none of the reportable ones is broken by it. |
| IngestInvariant.InvKept | src/core/ingest/ingest.ts:38-121 | Every statement keeps: leases are issued ones, deliveries past the lease gate held one, verdicts match their rows, one committed row per job. |
| IngestSafety.OneCommitPerJob | src/core/store/results.ts:70-97 | In every run a job has at most one COMMITTED submission. |
| IngestSafety.CommitIsGated | src/core/ingest/ingest.ts:55-105 | At a commit the delivery's lease is current and was issued to its sender, no failure was reported, and the policy held as this delivery read it. |
| IngestSafety.VerdictIsFinal | src/core/store/results.ts:50-62 | A judged submission never changes again, in any run. |
| IngestSafety.LaterDeliveryRepeats | src/core/ingest/ingest.ts:53-57 | A delivery started after the verdict can only answer with it, whatever happens around it. |
| IngestAnswers.VerdictIsRepeated | src/core/ingest/ingest.ts:67-81 | In every run a delivery started later is told what the judging one answered, if and only if that one did not report a failure under a lease valid as it read the job. |
| IngestAnswers.RejectionIsRepeatedExactlyWhen | src/core/store/results.ts:50-62 | What a delivery that rejects its submission answers is what later ones are told, if and only if its statement finds the row waiting or rejected that way already, and it reported no failure. |
| IngestSafety.LeaseEndsOnce | src/core/store/jobs.ts:320-444 | Of failing, expiring, being released, killed or committed, at most one happens to a lease, and once: a failed attempt uses one retry. |
| IngestLeases.LeaseEndsExactlyWhen | src/core/store/jobs.ts:265-520 | A step ends a lease exactly when it is a sweep past the lease's time, a release, a kill, or a settling statement under that lease. |
| IngestLeases.SweepEndsOverdue | src/core/store/jobs.ts:361-412 | A sweep ends a lease exactly when its time is over; the job then waits if it has attempts left and is given up if not. |
| IngestLeases.EndedAs | src/core/store/jobs.ts:320-444 | What each of the other endings leaves of the job. |
| IngestLeases.WhileHeld | src/core/store/jobs.ts:242-290 | A held lease is extended from now on if it is not over, its job started or flagged; nothing else changes it. |
| IngestLeases.FailureAnswersAsWritten | src/core/ingest/ingest.ts:73-83 | A delivery that reports a failure answers what became of the job as it wrote it: given up, waiting again, or nothing done because the lease was over. |
| IngestLeases.LeaseBeginsExactlyWhen | src/core/store/jobs.ts:162-240 | A lease begins exactly with a claim of a waiting job that is not flagged, under a new id, and spends an attempt. |
| IngestLeases.WhileIdle | src/core/store/jobs.ts:450-606 | A job nobody works on is cancelled while it waits, replayed with a fresh budget once given up, and otherwise left alone. |
| IngestLeases.HeldUntilEnded | src/core/store/jobs.ts:265-520 | In every run a lease is held until one of those ends it and never after: no sweep takes it before its time. |
| IngestLeases.SettledIsFinal | src/core/store/jobs.ts:265-606 | A job that succeeded or was cancelled never changes again, in any run. |
| IngestSafety.OverLeaseDoesNothing | src/core/store/jobs.ts:265-294 | A worker-driven statement whose lease is not current changes no job. |
| IngestSafety.ExpiredStaysExpired | src/core/store/jobs.ts:278-296 | A lease past its time is never extended again, in any run. |
| IngestSafety.CancelledIsNotLeasedAgain | src/core/store/jobs.ts:450-460 | A job flagged for cancellation is never leased again unless it is replayed. |
| IngestSafety.FailDecidesAsIfAtomic | src/core/store/jobs.ts:320-359 | What `fail` writes is what the row's attempts call for at that instant, although they were read before. |
| IngestSafety.AttemptsWithinBudget | src/core/store/jobs.ts:162-606 | No run spends more attempts than a job was given, and a waiting job has one left. |
| IngestExactness.AgreementStep | src/core/ingest/ingest.ts:99-105 | SUCCEEDED-means-COMMITTED survives a step if and only if the step does not commit another job's submission. |
| IngestExactness.ResultKeyNamesJob | src/contracts/envelope.ts:57-59 | A worker's key determines its job. |
| IngestExactness.SucceededExactlyWhenCommitted | src/core/store/results.ts:64-97 | With the workers' keys, in every run a job is SUCCEEDED exactly when it has a COMMITTED submission. |
| IngestExactness.CommittedWasChecked | src/core/ingest/ingest.ts:50-105 | At every commit in every run: if the recorded envelope is the delivered one, what the committed row holds passed the policy as this delivery read it. |
| IngestExactness.EqualKeysWereChecked | src/core/store/results.ts:23-48 | So with equal envelopes under equal keys everything committed was checked. |
| IngestRuns.HolderCommitsExactlyWhen | src/core/ingest/ingest.ts:38-121 | An undisturbed valid delivery by the current holder commits if and only if its key is new, or its row still waits and that row's job has no commit. |
| IngestRuns.FailureIsRepeatedAsSuperseded | src/core/ingest/ingest.ts:67-81 | For any reported failure, a run in which a failure is acknowledged as such and its repetition as superseded. |
| IngestRuns.PauseLosesResult | src/core/store/jobs.ts:427-444 | For any good result of the next holder, a run in which the attempt a pause gave back makes it a duplicate that is never committed. |
| IngestRuns.UncheckedEnvelopeCommitted | src/core/store/results.ts:38-43 | For any result that passes the policy and any title not tracked, a run in which that result is checked and one claiming the title is committed. |
| IngestRuns.OtherJobCommitted | src/core/store/results.ts:70-97 | For any two jobs and a good result under the other's key, a run in which one job is SUCCEEDED without a committed submission and the other has one and still waits. |
| IngestRuns.CopyInFlightDisagrees | src/core/ingest/ingest.ts:99-105 | For any good result, a run in which a copy in flight is told superseded while its submission is committed. |
| RateLimiter.RateLimiter.Allow | src/core/api/ratelimit.ts:15-34 | The answer and the new buckets are those of the level the key had, spent and cleaned up. |
| RateLimiter.RateLimiter.Forget | src/core/api/ratelimit.ts:28-31 | The cleanup loop removes exactly the buckets idle for more than 300 seconds. |
| RateLimiter.WindowBound | src/core/api/ratelimit.ts:15-34 | From any state, the cost admitted for a key in a window is at most capacity plus refill at the faster of the rate and capacity per eviction time. |
| RateLimiter.WindowBoundInTokens | src/core/api/ratelimit.ts:15-34 | A limiter that refills in five minutes admits at most its capacity and its rate times the window's length for one key. |
| RateLimiter.AdmitsExactlyWhen | src/core/api/ratelimit.ts:15-26 | A call is admitted exactly when what the key had and the time has brought, up to the capacity, covers it; a refused call takes nothing. |
| RateLimiter.ForgetsExactlyWhen | src/core/api/ratelimit.ts:27-32 | A key is forgotten exactly by an admitted call of another that leaves more than 10,000 keys, after five minutes without a call. |
| RateLimiter.EvictionIsInvisible | src/core/api/ratelimit.ts:27-32 | When a bucket refills in the time it takes to be forgotten, forgetting cannot be told from keeping, whatever the calls cost. |
| RateLimiter.EvictionIsInvisibleExactlyWhen | src/core/api/ratelimit.ts:27-32 | No run of calls of cost one can tell, if and only if a bucket refills in that time. |
| RateLimiter.NominalBoundExactlyWhen | src/core/api/ratelimit.ts:15-34 | The bound capacity plus refill holds of every run of calls of cost one if and only if the same. |
| RateLimiter.LimitersOfTheCore | src/core/api/context.ts:127-139 | Which of the shared limiters meet that condition. |
| RateLimiter.WebhookLimiter | src/core/api/routes/webhooks.ts:52 | The webhook limiter meets it. |
| RateLimiter.InstallLimiter | src/core/api/routes/sysops.ts:91-92 | The install limiter does not. |
| Uploader.Reports.Report | src/services/uploader.ts:200-206 | A pass's processed and failed counts are added to its queue's, and nothing else changes. |
| Uploader.Reports.Take | src/services/uploader.ts:317-319 | The tally is handed over whole and cleared. |
| Uploader.PublishDepths | src/services/uploader.ts:216-227 | What remains of a kind is the sum of its pending and leased rows. |
| UploaderEffects.TakesExactlyWhen | src/core/store/uploadTasks.ts:607-664 | A claim takes a row exactly when it passes the filter as the claim saw it and as it is, with its chapter free as the claim saw it; it is then leased for ten minutes, one attempt later. |
| UploaderEffects.WaitingGoesBack | src/services/uploader.ts:163-172 | A row whose execution waits to be confirmed goes back, due later, with its attempt given back, and counts as deferred. |
| UploaderEffects.WakesByTheGates | src/services/uploader.ts:250-265 | A loop at rest takes up work while the process runs and is not paused, and stops once it does not run. |
| UploaderEffects.WrittenIsDone | src/services/uploader.ts:173-176 | A row whose execution wrote is DONE and counts as processed. |
| UploaderEffects.ThrownGoesByItsAttempts | src/services/uploader.ts:177-186 | A row whose execution failed is tried again later or given up by its attempts, and counts as failed. |
| UploaderEffects.RejectedAwait | src/services/uploader.ts:161-188 | A rejected await after the execution is a failed task; one around a claim or a failure ends the pass. |
| UploaderEffects.DoneOnlyAfterWrite | src/services/uploader.ts:161-176 | In every run a row becomes DONE only after an execution of it wrote, under the lease that still holds it. |
| UploaderEffects.PassGoesOnExactlyWhen | src/services/uploader.ts:156-158 | A pass takes another row exactly while the process runs, is not paused and the pass took fewer than a hundred. |
| UploaderEffects.RefusedPassEnds | src/services/uploader.ts:250-271 | A pass that took nothing rests; another follows at once if it took something. |
| UploaderEffects.SweepFreesOverdue | src/core/store/uploadTasks.ts:730-737 | A sweep frees exactly the rows whose lease is over. |
| UploaderEffects.RemainingIsOpen | src/services/uploader.ts:216-227 | With one depth per kind and state, what is published as remaining of a queue is the number of its rows that wait or are under way. |
| UploaderEffects.QueueingExactlyWhen | src/core/store/uploadTasks.ts:548-582 | Queueing adds a row or, unless it is an upload, starts a settled one over; one that waits or is under way is left alone. |
| UploaderEffects.UploadedStaysDone | src/core/store/uploadTasks.ts:35-47 | In every run a chapter that was uploaded is never queued for upload again. |
| UploaderSafety.NoChapterTwiceExactlyWhen | src/core/store/uploadTasks.ts:607-664 | A run leases two rows about one chapter if and only if some claim takes a row while another about the chapter, taken since that claim's snapshot, is still held. |
| UploaderSafety.NoChapterTwice | src/core/store/uploadTasks.ts:607-664 | While claims take turns, in every run no two leased rows are about one chapter. |
| UploaderSafety.OverlappingClaimsShareChapter | src/core/store/uploadTasks.ts:607-664 | From any state where two kinds are due for one chapter and both loops are about to claim, the overlapping claims lease both. |
| UploaderSafety.DeleteAndCardAtOnce | src/services/uploader.ts:31-52 | From any start a run leases a DELETE and an UNAVAILABLE row of one chapter at once. |
| UploaderSafety.LostLeaseSettlesNothing | src/core/store/uploadTasks.ts:666-736 | A lease gone from its row never comes back, and completing, deferring or failing with it leaves the table as it is. |
| UploaderSafety.FailDecidesAsIfAtomic | src/core/store/uploadTasks.ts:706-728 | What `fail` writes is what the row's attempts call for at that instant, in every run. |
| UploaderSafety.CompletionCountsEitherWay | src/services/uploader.ts:173-176 | A completion counts as processed with or without its lease; the row becomes DONE exactly with it. |
| UploaderSafety.EveryTaskCountedOnce | src/services/uploader.ts:148-206 | In every run each claimed row is counted once: flushed, still to be reported, deferred, lost with its pass, or in the pass going on. |
| UploaderSafety.LostExactlyWhenAPassThrows | src/services/uploader.ts:250-271 | Counts are lost exactly when a claim or the writing of a failure is rejected in a pass that has counted something. |
| UploaderSafety.ReportsAddUpExactlyWhen | src/services/uploader.ts:250-271 | From the start, what is reported, deferred and at hand accounts for every task taken, if and only if no such rejection happens. |
| UploaderSafety.AtMostOneMore | src/services/uploader.ts:153-158 | While paused or stopping each loop starts at most one more row, and none unless it had already asked. |
| GuardedFetch.Guarded | src/extsdk/guardedFetch.ts:194-296 | The loop ends, and its requests and outcome are those of the specification; a refused first URL sends nothing. |
| GuardedFetch.FollowedByAnother | src/extsdk/guardedFetch.ts:211-296 | A request is followed by another exactly when its reply is a fault or a server error with attempts left and a replayable body, a 429 with attempts left, or a redirect that is followed; and by which. |
| GuardedFetch.EndsByTheLastReply | src/extsdk/guardedFetch.ts:211-296 | A call ends with its last reply or the error that reply leads to, by that reply and its turn alone. |
| GuardedFetch.RequestBound | src/extsdk/guardedFetch.ts:211-296 | One call sends at most (maxRedirects + 1) * (maxRetries + 1) requests, although a hop gives the attempts back. |
| GuardedFetch.RequestBoundIsReached | src/extsdk/guardedFetch.ts:211-296 | Some answers make a call send exactly that many. |
| GuardedFetch.RequestsAllowed | src/extsdk/guardedFetch.ts:185-192 | Every request on every hop and retry goes to an allowed host. |
| GuardedFetch.DroppedBodyStaysDropped | src/extsdk/guardedFetch.ts:261-264 | Every request carries the first body or none, and none carries one after one without. |
| GuardedFetch.OneShotBodySentAgain | src/extsdk/guardedFetch.ts:232-296 | A one-shot body that has left leaves again, unchanged, if and only if the reply is a 429 with attempts left, or a redirect that keeps the body, with redirects left and a location that resolves to an allowed host. |
| Politeness.Slots.Reserve | src/extsdk/guardedFetch.ts:169-183 | The slot is reserved before waiting, and the wait is never negative. |
| Politeness.SlotsApart | src/extsdk/guardedFetch.ts:151-183 | Two slots of one host are at least the interval apart in claim order, for any clock and jitter, and none is before its claim. |
| Politeness.FirstSlot | src/extsdk/guardedFetch.ts:169-178 | The first claimant of a host leaves within the fraction of an interval it drew. |
| Politeness.SlotFollowsPrevious | src/extsdk/guardedFetch.ts:156-183 | Any other leaves one drawn gap after the one before it, or at once when that is over. |
| Politeness.SlotIsSoon | src/extsdk/guardedFetch.ts:151-183 | The n-th claimant leaves no later than the latest claim time and n longest gaps. |
| Migration.Batches | src/cli/migrate-from-mongo.ts:199-219 | The batches hold every document once, in order, and are full but for the last. |
| Migration.MigrateUploaded | src/cli/migrate-from-mongo.ts:221-260 | Every source document is counted as inserted or skipped; a dry run changes nothing. |
| Migration.RefreshLeavesTheLast | src/cli/migrate-from-mongo.ts:246-253 | After a refresh every key has its last document's columns and its first timestamp, whatever the batch size, and no other row changed. |
| Migration.SecondPassDoesNothing | src/cli/migrate-from-mongo.ts:221-260 | A second pass, in any batches, inserts nothing and changes nothing. |
| Migration.DryRunPredictsExactlyWhen | src/cli/migrate-from-mongo.ts:241-245 | A dry run on an empty target predicts the real count if and only if no key occurs twice. |
| Migration.MigrateSeen | src/cli/migrate-from-mongo.ts:262-302 | Every source document is counted; the first document of every key the target lacks is inserted. |
| Migration.SeenDryRunPredicts | src/cli/migrate-from-mongo.ts:397-436 | With the run-wide set a dry run on an empty target always predicts the real count. |
| Migration.SeenPassKeepsAll | src/cli/migrate-from-mongo.ts:356-436 | Every source key is in the target afterwards, and no row that was there is rewritten. |
| Migration.SecondSeenPassDoesNothing | src/cli/migrate-from-mongo.ts:356-436 | A second run of these passes inserts nothing and changes nothing. |
| Migration.IdKeyTellsApart | src/cli/migrate-from-mongo.ts:278-283 | The remembered key tells rows apart as long as no extension name holds a bar. |
| Migration.IdKeySharedExactlyWhen | src/cli/migrate-from-mongo.ts:278-283 | Some other row has a row's key exactly when a bar occurs in its extension's name or its id. |
| Migration.MigrateEdited | src/cli/migrate-from-mongo.ts:304-348 | Every document is counted, and the table is the documents inserted, or upserted when refreshing. |
| Migration.MigrateQueue | src/cli/migrate-from-mongo.ts:515-572 | Every document is counted, and an existing row is left alone. |
| Migration.OneByOneDryRunPredictsExactlyWhen | src/cli/migrate-from-mongo.ts:304-348 | The document-by-document dry runs predict the real count if and only if no key occurs twice. |
| Migration.MigrateImages | src/cli/migrate-from-mongo.ts:461-513 | The artifacts hold the readable pages in the order of the document; missing and oversize images are counted as such. |
| Scopes.HasScope | src/core/api/scopes.ts:98-108 | The scan finds a scope exactly when some held string grants it. |
| Scopes.StarGrantsAll | src/core/api/scopes.ts:98-108 | A star grants every scope. |
| Scopes.IntersectionGrants | src/core/api/scopes.ts:120-124 | The intersection grants a scope exactly when both sides do, whatever strings they hold. |
| Scopes.ExpandAllMembers | src/core/api/scopes.ts:180-199 | The expansion of a valid list holds exactly the scopes it grants. |
| Scopes.CloseAllMembers | src/core/api/scopes.ts:214-236 | The closure of a denial holds exactly the scopes that are or imply a denied one. |
| Scopes.ExpandScopes | src/core/api/scopes.ts:180-199 | The loop computes that expansion in insertion order. |
| Scopes.DenialClosure | src/core/api/scopes.ts:214-236 | The loop computes that closure in insertion order. |
| Scopes.DenialWins | src/core/api/scopes.ts:251-262 | With a denial an account grants a scope exactly when its lists do and the scope neither is nor implies a denied one, and it holds outright all it grants. |
| Scopes.NoDenialKeepsAll | src/core/api/scopes.ts:256-259 | Without a denial nothing is added or lost. |
| Scopes.ParsedIsValid | src/core/api/scopes.ts:72-79 | Minted lists are valid; nothing is wrong with a request exactly when it was, and then nothing is lost. |
| Scopes.ScopesAreWellFormed | src/core/api/scopes.ts:21-53 | The scopes of this release are ones the theorems apply to. |
| AdminAuth.Request.Authenticate | src/core/api/auth.ts:138-241 | When a request is refused, and with which status, exactly; a client token never gets OWNER; acting for someone grants a scope exactly when token and account both do; every other way in grants what its credential says. |
| AdminAuth.MalformedHeaderIsNoHeader | src/core/api/auth.ts:131-136 | A header names someone exactly when, trimmed, it is five to 25 digits; any other counts as no header. |
| LoginState.EncodedDecodesBack | src/core/api/oauth.ts:127-142 | A state survives encoding and decoding exactly when its ids and nonce are dot-free and not empty. |
| LoginState.DecodedEncodesBack | src/core/api/oauth.ts:133-142 | Anything that decodes encodes back to itself. |
| LoginState.LoginIsNeverLink | src/core/api/oauth.ts:127-142 | Whatever the nonce, a login state is never read as a link. |
| LoginState.SignedUnsigns | src/core/api/session.ts:49-63 | A signed value is accepted exactly when it is not empty and the cookie fits. |
| LoginState.UnsignsExactlyWhen | src/core/api/session.ts:54-63 | What is accepted is exactly a value that is not empty with its own signature, within 4096 units. |
| LoginState.HeaderTooLong | src/core/api/session.ts:66-68 | A header that is empty or over the limit carries no state. |
| LoginState.UnsignedWasSigned | src/core/api/session.ts:54-63 | Only a value's own signature is accepted. |
| LoginState.ReadCookie | src/core/api/session.ts:66-75 | The loop finds the first part that names the cookie. |
| LoginState.CookieIsRead | src/core/api/session.ts:66-75 | Among any cookies, empty ones too, the first with a name is read, whole. |
| LoginState.StateSurvives | src/core/api/oauth.ts:235-237 | A state set as a signed cookie comes back unchanged among any other cookies that fit the limits. |
| LoginState.AcceptedWasSigned | src/core/api/oauth.ts:235-237 | Whatever header is accepted, its state was signed as exactly the value it encodes to. |
| DiscordLink.RunKeepsInv | src/core/api/oauth.ts:62-107 | In every run no two accounts share a Discord id or an address. |
| DiscordLink.LinkKept | src/core/api/oauth.ts:266-292 | A link survives an action exactly when the action is not one of four that move it. |
| DiscordLink.LinkedLoginReachesAccount | src/core/api/oauth.ts:76-84 | Until such an action a linked id reaches its account, whatever address Discord reports. |
| DiscordLink.OnlyApprovedLogIn | src/core/api/oauth.ts:76-97 | Whoever gets in is an approved account that carries the identity, linked before or matched by its verified address. |
| DiscordLink.LoginByDiscordId | src/core/api/oauth.ts:76-84 | A login finds the account with the Discord id first; it gets in exactly when it is approved. |
| DiscordLink.LoginByAddress | src/core/api/oauth.ts:86-97 | Else the account with its verified address, which is linked and gets in if it is approved. |
| DiscordLink.LoginSignsUp | src/core/api/oauth.ts:100-107 | Else it is a signup: refused while those are closed, else a new account that waits for approval. |
| DiscordLink.LinksExactlyWhen | src/core/api/oauth.ts:266-292 | Linking attaches an identity exactly unless another account has it. |
| DiscordLink.AccountsByAddress | src/core/store/adminUsers.ts:143-158 | An invited account is approved at once; one signed up by address, while signups are open, is not. |
| DiscordLink.UnverifiedReachesNobody | src/core/api/oauth.ts:86-87 | An unlinked identity without a verified address changes nothing, and only such a one is answered so. |
| DiscordLink.LoginApprovesNobody | src/core/store/adminUsers.ts:252-268 | Whoever gets in after a run was approved before it or by an operator during it. |
| DiscordLink.EmailMatchTakesOver | src/core/api/oauth.ts:89-97 | A verified address relinks an account, and the Discord id it had no longer reaches it. |
| BundleCache.PublishedStaysComplete | src/worker/bundleCache.ts:51-87 | However agents race and die, a bundle's directory is absent or complete, and never changes once it is there. |
| BundleCache.ReturnedIsWhole | src/worker/bundleCache.ts:51-87 | Every `ensure` that returns has its whole tree, then and afterwards. |
| BundleCache.EnsureBegins | src/worker/bundleCache.ts:51-60 | A name that is no hash is refused before anything is touched. |
| BundleCache.CompleteIsReturned | src/worker/bundleCache.ts:56-60 | A complete directory is returned without fetching. |
| BundleCache.EnsureAlone | src/worker/bundleCache.ts:51-87 | A call nothing disturbs fetches, stages, marks and publishes the bundle, returns it and leaves no staging directory. |
| BundleCache.LoserReturnsTheWinners | src/worker/bundleCache.ts:72-84 | Whoever loses the race returns the winner's directory if it is complete and throws if not; its own staging goes. |
| BundleCache.FailedCallCleansUp | src/worker/bundleCache.ts:62-84 | A call that fails ends in a throw and its staging directory goes. |
| BundleCache.ResolvesByLastSegment | src/worker/bundleCache.ts:102-105 | A path resolves segment by segment: a dot stays, two dots go up, anything else goes down. |
| BundleCache.StartsWell | src/worker/bundleCache.ts:41-50 | The theorems hold from any cache whose bundle directories are complete, the empty one too. |
| BundleCache.AcceptedIsInside | src/worker/bundleCache.ts:97-108 | An entry is accepted exactly when its name, slashes either way, is not absolute and resolves inside the directory to a first segment that does not start with two dots. |

## Left out

- Characters are Unicode scalar values: lone surrogates do not occur, and lower-casing is that of ASCII.
- JSON numbers, booleans and null are not read; map files hold strings, string arrays and objects of those. A `__proto__` key is an ordinary key.
- The texts of plan reasons, log lines, metrics and audit records are not modelled; reasons are constructors.
- `claim` for jobs: the fairness, trust, extension and back-off filters only restrict which claims happen and are left out; the model allows any pending job that is not flagged.
- Ingestion: schema validation of the raw envelope and artifact pinning are left out; a failure of pinning after a commit is a dropped delivery. The three reads of the policy gate are one view.
- Runs, their advancement to INGESTING, and the processor that consumes committed envelopes are not part of this model.
- Uploader: one process; which of several due rows a claim picks, the per-extension pause, the pacing of new rows and operators' retries and removals are not constrained or left out. Title creation, notification sending and the index sweep are left out.
- RateLimiter.RateLimiter.Allow: real arithmetic stands for doubles.
- GuardedFetch.Guarded: URL parsing, headers, timeouts, delays and the response body are parameters or left out; the wait lengths of back-off and Retry-After are not modelled.
- Migration: column mapping, content sniffing and the per-extension configuration are left out; a document is its key, its columns and its insert-only timestamp.
- LoginState.UnsignedWasSigned: a given signature that is not ASCII makes the source throw where the model answers none.
- DiscordLink: every request is one step; the stores' unique indexes decide races between two. Roles, sessions and passwords are left out.
- BundleCache.AcceptedIsInside: POSIX paths; the archive library's own path handling when it writes an entry is left out.
- Lease renewal timing in the worker agent, the worker's HTTP retries, credential files, browser headers, the lease-side map inversion and the Discord bot would add easier members and are left out.
