# Verified models of the provider artifact codec and the bounded services around it

This project states in Dafny what the hardest parts of the accounting toolkit do, and proves properties of
them that span several functions, several files or whole runs.

* **Artifacts.** `Csv`, `Base64Url` and `Artifacts` model the pieces the artifact format is made of; `WheelRecord`
  is the validator of a wheel's RECORD, `WheelBuilder` the writer of wheels, `WheelMetadata` the text files in them,
  `SdistReader` the extraction of a source distribution into a fresh directory, `SdistBuilder` its writer. The main
  results connect writer and reader, which live in two files of the repository and check different things: exactly
  which built wheels validate and what a reader of their metadata finds, exactly which source distributions come
  back file by file, and that RECORD determines the archive.
* **Login throttle.** `LoginThrottle` is the sliding window with its lockout table, as a class with mutable tables
  and as a function over whole runs. `ThrottleInterleaving` lets many requests be anywhere between reading the
  clock and their outcome, and shows what survives that; `ThrottleWorstCase` determines exactly how many failures
  can then share a window.
* **Audit flusher.** `AuditFlusher` is the queue, the worker, the stop event, `flush` and `close` as atomic steps
  with a history of what was put and what was attempted.
* **Bounded consumers.** `MetadataLimits`, `RequestLimits`, `UploadLimits` and `ProviderLimits`: loops with a
  budget, each proved to decide a plain statement about the whole input.
* **Client session.** `ApiSession` is the mutable session map, run against arbitrary server answers.
* **Parsers and normal forms.** `DiffParser` with `DiffRoundTrip`, `CoverageGate`, `ProviderManifest`,
  `Scaffold`, and `ContainerLock` with `LockVersion`, `LockRoundTrip` and `LockMeaning`: the reader of a lock, what
  it reads back, and what it accepts in terms of words, parts and lines.

`Text`, `Sequences` and `Sorting` hold what Python's `str`, `set`, `sorted` and integer conversions contribute.

Code that works step by step is a method with loop invariants, proved equal to a specification function; the
lemmas are about that function. SHA-256, UTF-8, case folding and JSON parsing are function parameters. SHA-256 is
not assumed injective, which no function to digests of one length can be: where a digest identifies contents, the
statement names the collision it would take. UTF-8 is only assumed to decode what it encoded.

Quoting follows section 2 of RFC 4180 as Python's `csv` module (3.13 and later) writes it, digests section 5 of
RFC 4648, and RECORD the section "The .dist-info directory" of PEP 427.

## Where the code does less than one might expect

* The wheel builder checks for equal names before RECORD is added and without case folding, so some wheels it
  builds are refused by the validator: `WheelBuilder.BuildThenValidate` has the exact condition and
  `WheelBuilder.CaseClashHappens` a family of examples.
* A member name with a backslash, or one that ends in a slash, does not come back from a source distribution
  under that name: `SdistBuilder.SdistRoundTrip` has the exact condition.
* The throttle's rate bound holds of all interleaved runs if and only if at most one request of an identifier is
  in flight at a time, counted from the moment it reads the clock: `ThrottleWorstCase.BoundIffNoOverlap`. Counting
  only from its check is not enough, because the clock is read before the lock is taken:
  `ThrottleWorstCase.StaleClockBreaksBound`. With n in flight the exact maximum is `Worst(n)`: 5 n up to five
  requests, 35 for six, and growing with the square of n: `ThrottleWorstCase.WorstCase`.
* Entries put after the audit worker has exited are never written, and `flush` then waits for ever:
  `AuditFlusher.StrandedIffPutAfterExit`, `AuditFlusher.PutAfterExitHappens`.
* Duplicate evidence (a line both executed and missing) makes covered and missed lines add up to too much:
  `CoverageGate.CountsPartition`, `CoverageGate.DuplicateEvidenceCountsTwice`.
* A manifest key may start with a digit, and then has no usable package name; or it may be the SDK's own name, and
  the backend then refuses the generated project: `Scaffold.DerivedProjectIsBuildable` has the exact condition.
* An added line that starts with `++ ` is read as a file header: `DiffRoundTrip.ParseInvertsPrint` has the exact
  condition for whole diffs, `DiffRoundTrip.AddedLineTakenForHeader` for one such line.
* A server that issues a refresh token again after it was posted gets it posted again:
  `ApiSession.PostedAgainIffSpentIsStored`.

## Model

| member | source | states |
|---|---|---|
| `Csv.RoundTrip` | packages/provider-sdk/src/modular_accounting_provider_sdk/build_backend.py:236-237 | Whatever rows of fields the RECORD writer is given, with commas, quotes and line breaks anywhere, the reader's state machine returns those rows. |
| `Csv.ReadQuoted` | packages/provider-sdk/src/modular_accounting_provider_sdk/evidence.py:133 | Inside quotes the reader undoes the doubling of quote characters, up to the closing quote and no further. |
| `Csv.ReadsCrlf` | packages/provider-sdk/src/modular_accounting_provider_sdk/evidence.py:133 | Rows whose lines end in carriage return and line feed are read as the same rows. |
| `Csv.ReadsWithoutLastFeed` | packages/provider-sdk/src/modular_accounting_provider_sdk/evidence.py:133 | The last line feed may be missing: the same rows are read. |
| `Csv.QuotedFieldLooks` | packages/provider-sdk/src/modular_accounting_provider_sdk/build_backend.py:236-237 | A field with a comma, quote or line break is written between quotes with its quotes doubled. |
| `Base64Url.RoundTrip` | packages/provider-sdk/src/modular_accounting_provider_sdk/build_backend.py:157-159 | The unpadded digest text consists of alphabet symbols and decodes to the digest, for digests of every length. |
| `Base64Url.UnpaddedIsSymbols` | packages/provider-sdk/src/modular_accounting_provider_sdk/build_backend.py:158 | Stripping `=` from the right removes exactly the padding and no data symbol. |
| `Base64Url.UnpaddedInjective` | packages/provider-sdk/src/modular_accounting_provider_sdk/evidence.py:143-144 | Equal digest columns come from equal digests. |
| `Base64Url.GroupsAreNumbers` | packages/provider-sdk/src/modular_accounting_provider_sdk/build_backend.py:158 | Four symbols say, in base 64, the number their three bytes say in base 256. |
| `Artifacts.NormaliseDecides` | packages/provider-sdk/src/modular_accounting_provider_sdk/evidence.py:64-80 | A member name is accepted if and only if it is non-empty, at most 256 characters, without control characters and drive, and all its components are ordinary; the result only turns backslashes into slashes. |
| `Artifacts.NormaliseIdempotent` | packages/provider-sdk/src/modular_accounting_provider_sdk/evidence.py:64-80 | A normalised name is a fixed point; it is the join of ordinary components that hold neither slash nor backslash. |
| `Artifacts.SafeMembersDecides` | packages/provider-sdk/src/modular_accounting_provider_sdk/evidence.py:83-91 | An inventory is accepted if and only if there are at most 4096 names, all safe, and no two fold to the same key after cleaning. |
| `Artifacts.SafeMembersInventory` | packages/provider-sdk/src/modular_accounting_provider_sdk/evidence.py:83-91 | The inventory is the multiset of cleaned names, in order. |
| `WheelRecord.InspectZip` | packages/provider-sdk/src/modular_accounting_provider_sdk/evidence.py:94-106 | The accumulating loop decides the zip inventory: safe names, regular members or directories only, total declared size within the limit; with the right error. |
| `WheelRecord.ValidateWheelRecord` | packages/provider-sdk/src/modular_accounting_provider_sdk/evidence.py:123-148 | The validation loop with its early exits returns the verdict, error by error, that the specification assigns to the archive. |
| `WheelRecord.CheckRowsDecides` | packages/provider-sdk/src/modular_accounting_provider_sdk/evidence.py:137-145 | Going down the rows succeeds if and only if every single row is a triple that matches its member, or is RECORD's own entry with empty columns. |
| `WheelRecord.AcceptedMeans` | packages/provider-sdk/src/modular_accounting_provider_sdk/evidence.py:94-148 | Acceptance holds if and only if there are at most 4096 members with safe, case-distinct bare names, none of another kind than file, directory or unset, the declared sizes add up to at most the limit, and there is exactly one RECORD, whose rows list exactly the members with their digests and sizes. |
| `WheelRecord.AcceptedSays` | packages/provider-sdk/src/modular_accounting_provider_sdk/evidence.py:94-148 | The same without the validator's functions: one member is called like a RECORD, its text reads as triples, these list exactly the members, RECORD's own with empty columns and every other with `sha256=`, the unpadded digest of its bytes, and their number. |
| `WheelRecord.NoOtherAccepted` | packages/provider-sdk/src/modular_accounting_provider_sdk/evidence.py:101-103 | No wheel with a symbolic link, device or the like among its members is accepted. |
| `WheelRecord.KindsMakeNoDifference` | packages/provider-sdk/src/modular_accounting_provider_sdk/evidence.py:100-103 | Whether members are stored as files, directories or without a type changes neither inventory nor verdict of acceptance. |
| `WheelRecord.WheelHashReads` | packages/provider-sdk/src/modular_accounting_provider_sdk/evidence.py:143-144 | The digest column is `sha256=` and symbols that decode to the digest. |
| `WheelRecord.ReadAt` | packages/provider-sdk/src/modular_accounting_provider_sdk/evidence.py:142 | With distinct names, reading a member by name gives the bytes of that member. |
| `WheelRecord.InventoryNamesDistinct` | packages/provider-sdk/src/modular_accounting_provider_sdk/evidence.py:87-96 | A clean inventory has no two members of one name, whatever the case folding does. |
| `WheelRecord.HashDetermines` | packages/provider-sdk/src/modular_accounting_provider_sdk/evidence.py:143-144 | Equal digest columns mean equal contents or two contents that collide under SHA-256. |
| `WheelRecord.RecordDeterminesArchive` | packages/provider-sdk/src/modular_accounting_provider_sdk/evidence.py:126-145 | Two accepted archives with the same RECORD name and bytes have the same member names, and member by member equal lengths and equal bytes, unless those two contents are a SHA-256 collision. |
| `WheelBuilder.AddFiles` | packages/provider-sdk/src/modular_accounting_provider_sdk/build_backend.py:212-230 | The caller's list is extended in place by METADATA, WHEEL and exactly those optional files that were given, in that order. |
| `WheelBuilder.HashRows` | packages/provider-sdk/src/modular_accounting_provider_sdk/build_backend.py:234-237 | One row per file with its digest and size, then RECORD's own row with empty columns. |
| `WheelBuilder.WriteMembers` | packages/provider-sdk/src/modular_accounting_provider_sdk/build_backend.py:241-243 | The archive holds the files in the given order, each as a regular member with its own bytes and size. |
| `WheelBuilder.WriteWheel` | packages/provider-sdk/src/modular_accounting_provider_sdk/build_backend.py:201-244 | The whole builder: the list after the call, the duplicate check before RECORD is added, and the archive of the sorted files. |
| `WheelBuilder.FileOrder` | packages/provider-sdk/src/modular_accounting_provider_sdk/build_backend.py:242 | Name-then-bytes order is total, so sorting the files has one result. |
| `WheelBuilder.LimitsForgetOrder` | packages/provider-sdk/src/modular_accounting_provider_sdk/build_backend.py:242 | The reader's limits do not depend on the order in which files are listed or stored. |
| `WheelBuilder.BuiltRecordDescribes` | packages/provider-sdk/src/modular_accounting_provider_sdk/build_backend.py:234-243 | The RECORD the builder wrote describes the archive the builder stored: parsed back, its rows list exactly the members with matching digests and sizes. |
| `WheelBuilder.BuildThenValidate` | packages/provider-sdk/src/modular_accounting_provider_sdk/build_backend.py:201-244 | For all metadata and files the validator accepts the built wheel if and only if the final members are within the reader's limits (number, safe names, no case clash, total size) and no other name ends like a RECORD. |
| `WheelBuilder.CaseClashIsBuiltAndRefused` | packages/provider-sdk/src/modular_accounting_provider_sdk/build_backend.py:201-244 | For all metadata, options and files: two of the caller's files whose names differ but fold alike pass the duplicate check with everything the builder adds, and the wheel is refused by the validator. |
| `WheelBuilder.AddedNamesDistinct` | packages/provider-sdk/src/modular_accounting_provider_sdk/build_backend.py:212-230 | The builder's own additions never clash with each other, nor with a name without a slash. |
| `WheelBuilder.CaseClashHappens` | packages/provider-sdk/src/modular_accounting_provider_sdk/build_backend.py:201-244 | Any two top-level files that differ by case only are built into a wheel and refused, whatever metadata and options. |
| `WheelBuilder.WheelMetadataReads` | packages/provider-sdk/src/modular_accounting_provider_sdk/build_backend.py:170-222 | In every built wheel METADATA, decoded and read line by line, gives Name, Version, Requires-Python and the Requires-Dist values in order as the project has them, and License-Expression and License-File if and only if a licence is given that is not empty; WHEEL gives its four headers. |
| `WheelBuilder.WheelOptionsRead` | packages/provider-sdk/src/modular_accounting_provider_sdk/build_backend.py:225-230 | Entry points, licence and provider identity, where given, are read back by name byte for byte. |
| `WheelBuilder.WheelHoldsFiles` | packages/provider-sdk/src/modular_accounting_provider_sdk/build_backend.py:234-243 | Every file of the caller is read back by name, and the archive holds these, three files of its own and one for each option given. |
| `WheelBuilder.WheelIsSorted` | packages/provider-sdk/src/modular_accounting_provider_sdk/build_backend.py:241-243 | Members are stored in ascending order of their names, as regular files of their real size. |
| `WheelMetadata.MetadataValues` | packages/provider-sdk/src/modular_accounting_provider_sdk/build_backend.py:170-179 | The headers of the metadata text, each read up to its line feed, are what the fields say, for fields without line breaks. |
| `WheelMetadata.DistInfoReads` | packages/provider-sdk/src/modular_accounting_provider_sdk/build_backend.py:210-211 | The metadata folder's name holds the distribution with underscores up to its first hyphen, and the version behind it. |
| `SdistReader.InspectTar` | packages/provider-sdk/src/modular_accounting_provider_sdk/evidence.py:109-120 | The accumulating loop decides the tar inventory; only file sizes count towards the limit. |
| `SdistReader.ExtractSdistSafely` | packages/provider-sdk/src/modular_accounting_provider_sdk/evidence.py:151-190 | The extraction loop with its early exits returns the result or error the specification assigns, and the tree it leaves. |
| `SdistReader.JoinPathDescends` | packages/provider-sdk/src/modular_accounting_provider_sdk/evidence.py:167 | Joining ordinary components onto a path can only descend, although an absolute component would start over. |
| `SdistReader.MakeFoldersDoes` | packages/provider-sdk/src/modular_accounting_provider_sdk/evidence.py:175-177 | Making a folder with its parents succeeds if and only if no file is on the way, adds exactly the missing folders and changes nothing else. |
| `SdistReader.FileFits` | packages/provider-sdk/src/modular_accounting_provider_sdk/evidence.py:174-184 | Writing a file is possible if and only if the member clashes with no earlier one, in terms of the two system calls that would notice. |
| `SdistReader.ExtractMembersDoes` | packages/provider-sdk/src/modular_accounting_provider_sdk/evidence.py:165-184 | For every sound list of members extraction succeeds if and only if no file stands where another member needs a folder and sizes are honest; the tree then holds exactly the members. |
| `SdistReader.OneTopLevel` | packages/provider-sdk/src/modular_accounting_provider_sdk/evidence.py:162-164 | The reader's count of top-level names is one exactly when all members start with the same component. |
| `SdistReader.RootIsFolder` | packages/provider-sdk/src/modular_accounting_provider_sdk/evidence.py:187-190 | The root is a directory at the end if and only if some member lies below it or is that directory. |
| `SdistReader.ExtractDecides` | packages/provider-sdk/src/modular_accounting_provider_sdk/evidence.py:109-190 | Extraction succeeds if and only if the destination is new, there are at most 4096 members with safe, case-distinct bare names, each a file or a folder, file sizes add up to at most the limit, all members lie under one root folder, nothing clashes and sizes are honest; it returns that root and leaves exactly the members. |
| `SdistReader.FolderMemberIsExtracted` | packages/provider-sdk/src/modular_accounting_provider_sdk/evidence.py:174-176 | An archive with a folder member and a file in it is extracted, whatever the file holds. |
| `SdistReader.ExtractionContained` | packages/provider-sdk/src/modular_accounting_provider_sdk/evidence.py:166-173 | Every path of the resulting tree extends the destination; distinct members have distinct targets made of ordinary components. |
| `SdistReader.ExtractionKeepsBytes` | packages/provider-sdk/src/modular_accounting_provider_sdk/evidence.py:178-184 | Every file member still has its bytes at the end, so nothing was overwritten; the bytes written are the sum of the declared sizes and within the limit. |
| `SdistBuilder.WriteSdist` | packages/provider-sdk/src/modular_accounting_provider_sdk/build_backend.py:271-283 | The loop writes the sorted members under the prefix after the duplicate check. |
| `SdistBuilder.SdistIsReproducible` | packages/provider-sdk/src/modular_accounting_provider_sdk/build_backend.py:281 | The archive depends on the members only as a multiset. |
| `SdistBuilder.RootedIsSafe` | packages/provider-sdk/src/modular_accounting_provider_sdk/build_backend.py:272-282 | An archived name is taken by the reader if and only if root, slash and name together are at most 256 characters, no character is a control character, and the components are ordinary. |
| `SdistBuilder.PlainSdistRoundTrip` | packages/provider-sdk/src/modular_accounting_provider_sdk/build_backend.py:271-283 | For names without backslashes and trailing slashes extraction either refuses the archive, by an exact condition, or restores exactly the files. |
| `SdistBuilder.SdistRoundTrip` | packages/provider-sdk/src/modular_accounting_provider_sdk/evidence.py:151-190 | For all members: extracting the written sdist gives back exactly those files and bytes below the single root `name-version`, and returns that root, if and only if there is a member, archived names and sizes are within the reader's limits, no file is a folder on the way to another, and no name holds a backslash or ends in a slash. |
| `LoginThrottle.Throttle.PruneAttempts` | src/apps/api/routers/auth.py:46-51 | The popping loop leaves what dropping outdated failures from the front leaves, and removes an empty entry. |
| `LoginThrottle.Throttle.Register` | src/apps/api/routers/auth.py:54-59 | A failure is appended; the fifth one sets the lockout and empties the deque. |
| `LoginThrottle.Throttle.Clear` | src/apps/api/routers/auth.py:62-64 | Both tables forget the identifier and nothing else. |
| `LoginThrottle.Throttle.Check` | src/apps/api/routers/auth.py:79-86 | Refused while locked out, with no change at all; otherwise only outdated failures are dropped. |
| `LoginThrottle.Throttle.Attempt` | src/apps/api/routers/auth.py:67-94 | A login from start to end has the outcome and the new tables of the specification. |
| `LoginThrottle.LoginIsLocal` | src/apps/api/routers/auth.py:46-94 | A request depends on and changes its own identifier's entries only. |
| `LoginThrottle.PrunedIsWindow` | src/apps/api/routers/auth.py:46-51 | After a check that is not refused the deque holds exactly those failures since the last success that lie inside the window; this rests on the lockout being longer than the window. |
| `LoginThrottle.RunKeepsInv` | src/apps/api/routers/auth.py:46-94 | Every run with non-decreasing times keeps the invariant that ties deque and lockout to the failure history. |
| `LoginThrottle.RateBound` | src/apps/api/routers/auth.py:30-64 | In every sequential run, since the last success, no closed interval of length WINDOW holds more than MAX_ATTEMPTS registered failures. |
| `LoginThrottle.RefusedIffRecentBurst` | src/apps/api/routers/auth.py:79-94 | A request is refused if and only if, in the history alone, five failures within one window were completed less than LOCKOUT ago; otherwise it succeeds if and only if it is authentic. |
| `LoginThrottle.HistoryStep` | src/apps/api/routers/auth.py:79-94 | The failure history that the other results speak of grows by each wrong password that is not refused, is emptied by a right one, and is left alone by everything else. |
| `LoginThrottle.DequeIsRecentHistory` | src/apps/api/routers/auth.py:46-51 | The deque equals the window-filtered failure history, although it is emptied at each lockout. |
| `LoginThrottle.IdentifiersIndependent` | src/apps/api/routers/auth.py:34-94 | Leaving out all other identifiers' requests from a run changes nothing for an identifier. |
| `ThrottleInterleaving.DequesStayShort` | src/apps/api/routers/auth.py:54-59 | With any interleaving of arrivals, checks, outcomes, early ends and passing time every deque stays shorter than MAX_ATTEMPTS. |
| `ThrottleInterleaving.LockoutChangesOnlyFromBefore` | src/apps/api/routers/auth.py:79-94 | Before a lockout expires only the outcome of a request that had passed its check before the lockout was set can change it. |
| `ThrottleInterleaving.StepsAreLocal` | src/apps/api/routers/auth.py:79-94 | A refused check only ends its request; arriving, leaving and time change no table; only outcomes change lockouts; no step touches another identifier. |
| `ThrottleInterleaving.UninterruptedIsSequential` | src/apps/api/routers/auth.py:67-94 | A request whose clock reading, check and outcome follow each other at once is a sequential login at that time. |
| `ThrottleInterleaving.RunProjects` | src/apps/api/routers/auth.py:67-94 | With at most one request of an identifier in flight, counted from its arrival, an interleaved run leaves its failure history as the sequential run of its finished requests does, and its tables as no later check can tell from that run's; the requests then read the clock in the order in which they finish. |
| `ThrottleInterleaving.RateBoundOneInFlight` | src/apps/api/routers/auth.py:30-94 | The rate bound under interleaving, without any assumption on the order of checks: with at most one request of the identifier in flight from its clock reading on, others interleaving freely, no window holds more than MAX_ATTEMPTS failures since its last success. |
| `ThrottleWorstCase.RunKeepsBounded` | src/apps/api/routers/auth.py:67-94 | Every interleaved run keeps an account of old and hot requests in flight, the deque and the lockout under which the failures so far and all that can still come stay within the maximum. |
| `ThrottleWorstCase.NeverWorse` | src/apps/api/routers/auth.py:30-94 | In every interleaved run with at most n requests of an identifier in flight no window ever holds more than `Worst(n)` of its failures since its last success. |
| `ThrottleWorstCase.WorstCase` | src/apps/api/routers/auth.py:30-94 | `Worst(n)` is the exact maximum: for every n, identifier and starting time some run with at most n requests in flight has that many failures in one window, and no run has more. |
| `ThrottleWorstCase.WorstIs` | src/apps/api/routers/auth.py:30-39 | The maximum in closed form: MAX_ATTEMPTS for each request in flight if and only if there are at most MAX_ATTEMPTS of them, and beyond that more, quadratically (35 for six). |
| `ThrottleWorstCase.BoundIffNoOverlap` | src/apps/api/routers/auth.py:30-94 | All interleaved runs with at most `limit` requests of an identifier in flight, counted from their clock readings, keep the rate bound if and only if the limit is at most one. |
| `ThrottleWorstCase.StaleClockBreaksBound` | src/apps/api/routers/auth.py:75-86 | Counting requests only between their two locked sections is not enough: a run with never more than one there, and one request that read the clock long before its check, has nine failures in one window. |
| `ThrottleWorstCase.BurstOfAnySize` | src/apps/api/routers/auth.py:79-94 | For every n, identifier and instant there is a run with n requests in flight after which that instant's window holds n failures. |
| `ThrottleInterleaving.InterleavedIndependent` | src/apps/api/routers/auth.py:34-94 | Leaving out all other identifiers' steps from any interleaved run changes neither the tables nor the requests in flight nor the failure history of an identifier. |
| `AuditFlusher.StepKeepsInv` | src/apps/api/audit.py:168-230 | Every step of producers, worker and closer keeps the accounting of put, attempted, in-flight and queued entries. |
| `AuditFlusher.NothingLost` | src/apps/api/audit.py:184-211 | At every reachable state attempted ++ in flight ++ queued is the enqueue order, and the unfinished count is the number of queued and in-hand entries. |
| `AuditFlusher.AttemptsFollowPuts` | src/apps/api/audit.py:191-211 | The i-th attempt is at the i-th entry put: each entry once, in order. |
| `AuditFlusher.HistoryGrows` | src/apps/api/audit.py:191-211 | Over every run the histories only grow. |
| `AuditFlusher.FlushWaitsForAll` | src/apps/api/audit.py:213-220 | Where `flush` returns, everything enqueued before the call has been attempted. |
| `AuditFlusher.WorkerProgresses` | src/apps/api/audit.py:198-211 | While work is unfinished and the worker lives it has a step, cannot exit, and every step it takes lowers the measure. |
| `AuditFlusher.JoinEnds` | src/apps/api/audit.py:198-228 | Every run, with producers, `close` and starters in between, in which the live worker takes more steps than the measure plus five for each entry put, passes a moment with nothing unfinished; so `join` returns. |
| `AuditFlusher.StrandedIffPutAfterExit` | src/apps/api/audit.py:198-228 | After the worker exited, entries are left unattempted, and `join` blocks, if and only if some entry is put afterwards. |
| `AuditFlusher.PutAfterExitHappens` | src/apps/api/audit.py:184-230 | Such a state is reachable: start, stop, the worker exits, and an entry is put. |
| `AuditFlusher.StopThenExitLeavesNothing` | src/apps/api/audit.py:222-230 | With no put after the stop event an exited worker has attempted everything. |
| `AuditFlusher.CloseEnds` | src/apps/api/audit.py:198-230 | Once the stop event is set and producers are quiet the worker exits within a bounded number of its own steps, with every entry attempted. |
| `AuditFlusher.WorkerMoves` | src/apps/api/audit.py:198-211 | The worker always has a step until it exits. |
| `AuditFlusher.ExitNeedsStop` | src/apps/api/audit.py:198 | Without the stop event the worker never exits. |
| `MetadataLimits.CheckKeys` | src/apps/api/metadata_limits.py:43-48 | The key loop accepts if and only if all keys are short text, and otherwise complains of the first that is not. |
| `MetadataLimits.CheckNode` | src/apps/api/metadata_limits.py:34-53 | The checks on one value accept exactly the values the recursive limit allows at that node, and otherwise name a limit that this node breaks. |
| `MetadataLimits.GoodMeans` | src/apps/api/metadata_limits.py:34-53 | The local checks pass throughout a value if and only if no complaint can be made of any node. |
| `MetadataLimits.LimitsLieAt` | src/apps/api/metadata_limits.py:27-53 | The limits are met exactly: six levels of nesting, 2048 nodes, 128 keys, 4096 characters; foreign objects are refused. |
| `MetadataLimits.ItemUnfold` | src/apps/api/metadata_limits.py:27-52 | A popped value is within the limits if and only if it passes its own checks and its children, one level deeper, are. |
| `MetadataLimits.TurnNodes` | src/apps/api/metadata_limits.py:26-52 | Nodes counted plus nodes reachable from the stack is conserved by a turn of the loop. |
| `MetadataLimits.ValidateMetadata` | src/apps/api/metadata_limits.py:15-55 | The stack loop accepts if and only if the recursive definition does, names only limits that are really broken, and takes at most 2049 turns whatever the value. |
| `MetadataLimits.SiblingOrderIrrelevant` | src/apps/api/metadata_limits.py:43-52 | Reordering keys and siblings at any depth does not change the decision. |
| `RequestLimits.RequestBodyLimit.DeclaredLength` | src/apps/api/middleware/request_limits.py:69-79 | The first content-length header decides; a value that is no natural number counts as none. |
| `RequestLimits.RequestBodyLimit.Handle` | src/apps/api/middleware/request_limits.py:29-67 | The receive loop decides the specification on declared length, concatenated length and way of ending, with a buffer never above the limit. |
| `RequestLimits.RequestBodyLimit.Call` | src/apps/api/middleware/request_limits.py:29-67 | The request is decided, and exactly if the application is to run a new channel is opened that holds the decided first message, not yet replayed. |
| `RequestLimits.Replay.Receive` | src/apps/api/middleware/request_limits.py:56-65 | One receive: the buffered request if it was not replayed yet, else a disconnect; from then on it counts as replayed. |
| `RequestLimits.AppSeesBodyOnce` | src/apps/api/middleware/request_limits.py:29-67 | The application runs only for an HTTP request whose declared and received lengths fit; in any number of receives it gets the whole concatenated body, or the disconnect, once, and disconnects from then on. |
| `RequestLimits.PayloadConcatenates` | src/apps/api/middleware/request_limits.py:39-54 | The body of a completed request is the concatenation of its chunks up to the first message that announces no more, with other messages anywhere between. |
| `RequestLimits.EndsDecide` | src/apps/api/middleware/request_limits.py:30-67 | A request that completes is passed on whole, one that breaks off as a disconnect, one still open is awaited, and each is rejected if it declares or sends too much; other schemes pass through. |
| `RequestLimits.DeclaredIsFirst` | src/apps/api/middleware/request_limits.py:69-79 | A length is declared if and only if the first content-length header, in any letter case, has a natural number. |
| `RequestLimits.ChunkingIrrelevant` | src/apps/api/middleware/request_limits.py:29-67 | Any chunking of a completed body, with other messages between and anything after, fares like the one-message request. |
| `RequestLimits.DecisionIsFinal` | src/apps/api/middleware/request_limits.py:41-54 | Once decided, later messages do not change the decision. |
| `UploadLimits.ReadBoundedUpload` | src/apps/web/upload_limits.py:40-76 | The loop returns the outcome of the specification for reported and unknown sizes and holds at most max + 1 bytes of an upload of unknown size. |
| `UploadLimits.ShortReadsIrrelevant` | src/apps/web/upload_limits.py:56-76 | For every rhythm of short reads the upload is accepted, whole, if and only if its length is at most the maximum. |
| `UploadLimits.HonestUploadDecides` | src/apps/web/upload_limits.py:47-76 | An honest upload, of reported or unknown size, is accepted whole if its length is at most the maximum and else too large. |
| `UploadLimits.AcceptedFits` | src/apps/web/upload_limits.py:47-76 | Whatever is reported or served, nothing longer than the maximum is accepted, and with a reported size nothing but what `getvalue` returned. |
| `ProviderLimits.ReadBoundedResponse` | src/plugins/provider_limits.py:80-114 | The outcome depends on status, declared length, the concatenated body and the way the stream ended, not on the chunks; at most max + 1 bytes are held. |
| `ProviderLimits.GetBoundedJson` | src/plugins/provider_limits.py:117-190 | Invalid calls make no request; otherwise the result is that of the last attempt, all earlier ones were transient, it stops early only on a lasting answer, and sleeps once between attempts. |
| `ProviderLimits.ReplyMeans` | src/plugins/provider_limits.py:80-188 | A reply gives a payload if and only if its status is below 400, its declared and read lengths fit, the stream ends and the body parses; the conditions of each error and of another attempt are as exact. |
| `ProviderLimits.ChunksIrrelevant` | src/plugins/provider_limits.py:97-104 | The cut of the body into chunks, empty ones included, does not matter. |
| `ApiSession.Session.ClearProtectedUtilityState` | src/apps/web/api_session.py:252-259 | Exactly the protected results are removed. |
| `ApiSession.Session.StoreApiSession` | src/apps/web/api_session.py:262-277 | A malformed pair changes nothing; otherwise the five session values are set and protected results removed. |
| `ApiSession.Session.ClearApiSession` | src/apps/web/api_session.py:280-285 | Exactly the session values and protected results are removed. |
| `ApiSession.Session.ReplaceRotatedApiSession` | src/apps/web/api_session.py:303-320 | The credentials are replaced only by a well-formed pair of the same session; otherwise nothing changes. |
| `ApiSession.Session.RequestWithOneRefresh` | src/apps/web/api_session.py:326-357 | The new state, the outcome, the refresh tokens posted and the bearer tokens sent are those of the specification for every combination of answers. |
| `ApiSession.ParsedIsAcceptable` | src/apps/web/api_session.py:166-193 | A pair parsed from a response is trimmed and passes the store's own validation. |
| `ApiSession.RequestCases` | src/apps/web/api_session.py:326-357 | A request leaves the credentials alone, removes all three, or replaces all three by the pair just received, the last only after posting a refresh token. |
| `ApiSession.OutcomeIs` | src/apps/web/api_session.py:335-357 | A response is returned, an exception passed on, or the user asked to sign in again if and only if the last protected request made was answered by another status than 401, raised, or was refused; then no session key and no protected result is left. There is a second request if and only if the first is refused, a refresh token can be posted, the reply is below 400 and its body is a pair of the stored session. |
| `ApiSession.TokensUsed` | src/apps/web/api_session.py:335-343 | The first request carries the stored access token, trimmed, and a refusal posts the stored refresh token, trimmed, if it is not empty or too long. |
| `ApiSession.StoreAfter` | src/apps/web/api_session.py:335-357 | Unless the user has to sign in again the store is unchanged after one request, and after two it holds the rotated pair and what was neither protected nor a credential. |
| `ApiSession.PairIsParsed` | src/apps/web/api_session.py:166-193 | A body that says an acceptable pair is parsed as that pair, field by field and trimmed; others give none. |
| `ApiSession.StoreSets` | src/apps/web/api_session.py:262-277 | A sign-in stores the three credentials, the lowered e-mail and the organisation, and keeps exactly what is not protected. |
| `ApiSession.ListedKeysAreProtected` | src/apps/web/api_session.py:16-44 | All listed results are protected, by name or by prefix. |
| `ApiSession.RetryCarriesNewToken` | src/apps/web/api_session.py:334-353 | At most two protected requests are made; a second one only after a rotation, and it carries the access token of that rotation. |
| `ApiSession.RefreshTokensUsedOnce` | src/apps/web/api_session.py:262-357 | Over every run of logins, logouts and requests against any server that issues no refresh token twice, the client posts no refresh token twice and posts only issued ones. |
| `ApiSession.UnspentIssuesSuffice` | src/apps/web/api_session.py:262-357 | It is enough that the server never issues a refresh token that was already posted. |
| `ApiSession.PostedAgainIffSpentIsStored` | src/apps/web/api_session.py:326-357 | The next refused request posts a refresh token for the second time if and only if the stored one was posted before. |
| `ApiSession.ReissuedTokenIsPostedAgain` | src/apps/web/api_session.py:303-357 | That is needed: in any state, a server that rotates to any token already posted gets it posted again at the next refusal, whatever it answers then. |
| `ApiSession.CredentialsFromOnePair` | src/apps/web/api_session.py:262-320 | At every moment of every run the credentials are all absent or all from one pair, against any server. |
| `ApiSession.RotationKeepsSession` | src/apps/web/api_session.py:303-320 | Whoever is still signed in after a request has the same session id, name and organisation as before. |
| `ApiSession.OtherStateSurvives` | src/apps/web/api_session.py:252-285 | State that is neither a session value nor a protected result survives every run unchanged. |
| `DiffParser.ParseChangedLines` | src/tools/diff_coverage.py:181-213 | The line loop computes the specification's dictionary or its first error. |
| `DiffRoundTrip.ParsePrintedHeader` | src/tools/diff_coverage.py:18-21 | The header of any hunk, counts given or left out, is read back as its new-side start and count. |
| `DiffRoundTrip.HunkIsHeader` | src/tools/diff_coverage.py:18-21 | A line is read as a hunk of certain new-side lines if and only if it is written as one, with digits, optional counts and any heading. |
| `DiffRoundTrip.NormalPaths` | src/tools/diff_coverage.py:86-90 | Reading leaves exactly those paths as they are that have no white space at their ends, no backslash and no leading `./` or slash. |
| `DiffRoundTrip.NormalizedIsTrimmed` | src/tools/diff_coverage.py:86-90 | A path that normalisation leaves alone has no white space at its ends. |
| `DiffRoundTrip.ParseReadsPieces` | src/tools/diff_coverage.py:181-213 | What the parser makes of any printed list of sections, whatever their added lines: cut at every added line that reads as a file header, it succeeds if and only if no piece without a path adds lines, and returns exactly the paths and lines of the pieces. |
| `DiffRoundTrip.ParseInvertsPrint` | src/tools/diff_coverage.py:181-213 | Parsing returns what the sections say if and only if no piece without a path adds lines and pieces and sections touch the same paths and change the same lines. |
| `DiffRoundTrip.PlainParseInvertsPrint` | src/tools/diff_coverage.py:181-213 | While added lines that read as file headers, if any, name the file they are in, parsing succeeds if and only if no deleted file is given lines, and then returns exactly the remaining paths with exactly the union of their new-side ranges. |
| `DiffRoundTrip.AddedLineTakenForHeader` | src/tools/diff_coverage.py:189-197 | For every text: a hunk that ends in an added line `++ ` and the text gives the next hunk to the path the text names. The file is read as it should be if and only if that is its own path, or none and the next hunk adds nothing; otherwise the next hunk's lines are reported for the other path. |
| `DiffRoundTrip.StrayHappens` | src/tools/diff_coverage.py:189-213 | An instance: a file y with the added line `++ x` and a line 5, which is reported for a file x. |
| `CoverageGate.Evaluate` | src/tools/diff_coverage.py:275-307 | The loop over the sorted paths returns the judged files or the first error. |
| `CoverageGate.EvaluateDecides` | src/tools/diff_coverage.py:275-307 | Evaluation fails if and only if some changed file has no evidence; the inconsistency error is unreachable. |
| `CoverageGate.FilesSayEvidence` | src/tools/diff_coverage.py:281-307 | The files are the changed ones in ascending order of their paths; a line is executable, covered or missed in one if and only if it is a changed line with evidence, executed, or missing. |
| `CoverageGate.PassedMeans` | src/tools/diff_coverage.py:73-83 | A gate passes if and only if 100 times the covered lines is at least the minimum times the executable ones, or nothing is executable and that is allowed. |
| `CoverageGate.OrderIrrelevant` | src/tools/diff_coverage.py:281-307 | The order of the dictionary does not matter. |
| `CoverageGate.CountsPartition` | src/tools/diff_coverage.py:61-71 | Covered and missed lines add up to the changed executable lines if and only if no changed line is reported both executed and missing; otherwise to more. |
| `CoverageGate.DuplicateEvidenceCountsTwice` | src/tools/diff_coverage.py:288-299 | A changed line both executed and missing is one executable line, counted once on each side. |
| `CoverageGate.PercentInRange` | src/tools/diff_coverage.py:73-77 | The percentage lies in 0..100, even with duplicate evidence. |
| `CoverageGate.PassIsMonotone` | src/tools/diff_coverage.py:73-83 | Per file, losing no covered line and gaining no uncovered one never turns a pass into a fail. |
| `CoverageGate.CoveringALineHelps` | src/tools/diff_coverage.py:79-83 | Executing a missed line never turns a pass into a fail. |
| `CoverageGate.AddingACoveredLineHelps` | src/tools/diff_coverage.py:79-83 | Changing one more executed line of a changed file never turns a pass into a fail. |
| `CoverageGate.AddingACoveredFileHelps` | src/tools/diff_coverage.py:275-307 | One more changed file whose changed lines are all executed: evaluating the extended maps, with its path wherever it sorts, never turns a pass into a fail. |
| `ProviderManifest.CollectValues` | packages/provider-sdk/src/modular_accounting_provider_sdk/contracts.py:72-86 | The loop strips every value, refuses an empty one and sorts. |
| `ProviderManifest.NormaliseTextFixed` | packages/provider-sdk/src/modular_accounting_provider_sdk/contracts.py:55-69 | Normalised text is a fixed point of normalisation. |
| `ProviderManifest.NormaliseValuesFixed` | packages/provider-sdk/src/modular_accounting_provider_sdk/contracts.py:72-86 | Normalised value lists are fixed points and keep their length. |
| `ProviderManifest.RebuildIsIdentity` | packages/provider-sdk/src/modular_accounting_provider_sdk/contracts.py:107-212 | Building a manifest from its own dictionary gives the same manifest, for every accepted draft. |
| `ProviderManifest.OrderAndPaddingIrrelevant` | packages/provider-sdk/src/modular_accounting_provider_sdk/contracts.py:107-193 | Reordering capabilities and credential names or padding them with white space gives the same manifest or the same error. |
| `ProviderManifest.AcceptedMeans` | packages/provider-sdk/src/modular_accounting_provider_sdk/contracts.py:107-193 | A manifest is accepted if and only if each field, without the white space around it, is within its length and of its pattern, capabilities and credential names are distinct and of their kind, and the policies are known. |
| `ProviderManifest.AcceptedSays` | packages/provider-sdk/src/modular_accounting_provider_sdk/contracts.py:107-193 | An accepted manifest says what was given, trimmed and with its lists sorted. |
| `ProviderManifest.VersionIsPrinted` | packages/provider-sdk/src/modular_accounting_provider_sdk/contracts.py:45 | Versions are three numbers joined by dots and an optional suffix. |
| `ProviderManifest.KeyIsPrinted` | packages/provider-sdk/src/modular_accounting_provider_sdk/contracts.py:44 | Keys are a namespace, a colon and a slug of single-separated runs. |
| `ProviderManifest.AcceptedLists` | packages/provider-sdk/src/modular_accounting_provider_sdk/contracts.py:107-193 | An accepted manifest lists one to five supported capabilities in strictly ascending order; its credential names ascend strictly and come with network access. |
| `ProviderManifest.KeyShape` | packages/provider-sdk/src/modular_accounting_provider_sdk/contracts.py:44 | A key is lowercase letters, digits and separators, starts and ends with a letter or digit, and no two separators meet. |
| `ProviderManifest.SmallestHasKey` | packages/provider-sdk/src/modular_accounting_provider_sdk/contracts.py:107-193 | For every well-formed key of at most 96 characters and every supported capability some manifest is accepted. |
| `Scaffold.PackageModuleIsValid` | packages/provider-sdk/src/modular_accounting_provider_sdk/path_safety.py:24-46 | The module path derived from any package name passes module validation unchanged. |
| `Scaffold.ScaffoldedProjectIsAccepted` | packages/provider-sdk/src/modular_accounting_provider_sdk/build_backend.py:57-116 | For every valid manifest and every choice of names a scaffolded project passes the backend's checks if and only if its distribution is not the SDK's own; key, module, version and capabilities come back unchanged. |
| `Scaffold.DerivedNamesWork` | packages/provider-sdk/src/modular_accounting_provider_sdk/scaffold.py:52-67 | With derived names scaffolding a valid manifest succeeds if and only if the key starts with a letter, and the distribution name is the key with its separators as hyphens. |
| `Scaffold.DerivedProjectIsBuildable` | packages/provider-sdk/src/modular_accounting_provider_sdk/scaffold.py:332-389 | Generated projects are buildable: with derived names a valid manifest is scaffolded and accepted by the backend if and only if its key starts with a letter and is not the SDK's name with other separators; key, version and capabilities come back unchanged. |
| `Scaffold.SmallestIsBuildable` | packages/provider-sdk/src/modular_accounting_provider_sdk/scaffold.py:332-389 | For every supported capability some project is scaffolded and accepted by the backend. |
| `Scaffold.DigitKeyIsRefused` | packages/provider-sdk/src/modular_accounting_provider_sdk/scaffold.py:52-58 | An accepted manifest with the key `1:b` cannot be scaffolded under derived names. |
| `Scaffold.SdkNameIsRefused` | packages/provider-sdk/src/modular_accounting_provider_sdk/build_backend.py:86-87 | An accepted manifest whose key derives the SDK's own distribution name is scaffolded and then refused by the backend. |
| `Scaffold.AcceptedRootIsPlain` | packages/provider-sdk/src/modular_accounting_provider_sdk/build_backend.py:271-272 | Metadata the backend accepts names an archive root without slashes, colons and control characters, as the sdist round trip assumes. |
| `ContainerLock.CanonicalNormalises` | scripts/dependencies/verify_container_lock.py:105-108 | Canonical names are lowercase without dots, underscores and double hyphens; they are exactly the fixed points. |
| `ContainerLock.LogicalRequirementLines` | scripts/dependencies/verify_container_lock.py:144-166 | The loop over physical lines computes the logical lines and the errors of interrupted and unfinished continuations. |
| `ContainerLock.ParseRequirements` | scripts/dependencies/verify_container_lock.py:169-223 | The loop over logical lines computes requirements and errors of the specification, with `seen` the names so far. |
| `LockRoundTrip.ReadPin` | scripts/dependencies/verify_container_lock.py:175-220 | The logical line of a well-formed pin is read as that pin, without errors, unless its name was seen. |
| `LockRoundTrip.PassOver` | scripts/dependencies/verify_container_lock.py:56-79 | White space rules of the hash patterns: text without hash tokens in front of the tokens is neither counted nor changed. |
| `LockRoundTrip.ParseInvertsPrint` | scripts/dependencies/verify_container_lock.py:144-223 | Every list of well-formed pins with distinct canonical names, names and extras in any case, written over continuation lines behind any header and with comments, is read back as that list, canonical, without errors. |
| `LockRoundTrip.ParsedNamesUnique` | scripts/dependencies/verify_container_lock.py:204-220 | Whatever the text, the names that come out are canonical and unique. |
| `LockRoundTrip.ErrorFreeDecides` | scripts/dependencies/verify_container_lock.py:144-223 | A text parses without errors if and only if its continuations are complete, it has a logical line, and every logical line is pinned, hashed with SHA-256 only, from an index, and of a new canonical name. |
| `LockRoundTrip.ErrorFreeIsLocked` | scripts/dependencies/verify_container_lock.py:186-220 | Without errors no line is dropped and every requirement carries at least one SHA-256 digest, none twice. |
| `LockVersion.ConcreteIsPrinted` | scripts/dependencies/verify_container_lock.py:61-69 | A version is concrete if and only if, in lowercase, it is written from an optional epoch, numbers joined by dots, an optional alpha, beta or candidate number, optional post and development numbers, and local words behind single separators. |
| `LockMeaning.ContinuationsDecide` | scripts/dependencies/verify_container_lock.py:144-166 | Logical lines come without errors if and only if every continued line is followed by one that is neither blank nor a comment. |
| `LockMeaning.ReadersGoByWords` | scripts/dependencies/verify_container_lock.py:53-54 | The hash patterns, found by position, pick out whole words: the digests are those of the words that are SHA-256 options, every hash option is counted, and removing the tokens leaves the other words. |
| `LockMeaning.EntryIsPrinted` | scripts/dependencies/verify_container_lock.py:55-60 | An entry is read from exactly the texts it can be written as, with any white space around the marker's semicolon. |
| `LockMeaning.SourceIsWord` | scripts/dependencies/verify_container_lock.py:70-73 | A line is refused for its source if and only if it holds a scheme, a spaced at-sign or an editable option standing alone, in any letter case. |
| `LockMeaning.GoodLineMeans` | scripts/dependencies/verify_container_lock.py:174-201 | A logical line is good if and only if it starts with no index option, holds no source, all its hash words are SHA-256 ones, at least one and none twice, and the rest is a pin of a concrete version. |
| `LockMeaning.ErrorFreeMeans` | scripts/dependencies/verify_container_lock.py:144-223 | A lock parses without errors if and only if every continuation is continued, something is installable, every logical line is good, and no two pin one canonical name. |
| `LockMeaning.MarkerFreeIsWellFormed` | scripts/dependencies/verify_container_lock.py:55-73 | Every pin without a marker is well-formed: no name, extras, concrete version or digests can look like a source or a hash token. |
| `LockMeaning.OnePinIsReadBack` | scripts/dependencies/verify_container_lock.py:144-223 | Every concrete version is read back under every name with every list of distinct digests. |
| `LockMeaning.PostReleaseIsReadBack` | scripts/dependencies/verify_container_lock.py:61-69 | An instance: pytz==2026.3.post1. |
| `LockRoundTrip.TransitiveCountNotNegative` | scripts/dependencies/verify_container_lock.py:254-281 | With all required names present the transitive count is not negative. |

## Left out

- Byte formats of zip, gzip and tar, and decompression: an archive is a sequence of members with a name, a kind, a declared size and bytes. Both headers cut a name at a NUL character, so such a name would come back as another one; here the reader refuses it.
- The field size limit of Python's `csv` reader, and errors that Python raises outside the caught classes are results like the others here.
- A failed extraction leaves a partial tree behind; the model returns only the error.
- Paths are POSIX paths; symbolic links, reparse points, permissions and the walk that collects source files are not modelled.
- Character classes are ASCII: `\d`, `lower()`, `IGNORECASE` and the e-mail's `lower()` on other alphabets are not modelled; `strip` knows all Unicode white space.
- Parsing TOML, JSON and `int()` texts: the models start from tables, parsed values and optional integers.
- Scaffold: writing source files, and the title-cased default display name.
- WheelBuilder.AddFiles: the provider identity arrives as bytes, because its JSON layout is `json.dumps`.
- LoginThrottle.Throttle.Attempt: authentication is a boolean input; token creation, HTTP errors and session clean-up are not modelled; times are whole microseconds.
- ThrottleInterleaving.RateBoundOneInFlight: the clock never runs backwards; a wall clock that is set back is not modelled.
- AuditFlusher.FlushWaitsForAll: covers `flush` with waiting; without it the call does nothing. An attempt counts whether the database accepts the entry or not. Queue operations are atomic steps.
- `_compute_diff` and the synchronous path of the audit log.
- MetadataLimits.CheckKeys: keys are examined before children are pushed, not alternately; no difference can be seen because pushing cannot fail.
- RequestLimits.RequestBodyLimit.Handle: `Waiting` stands for a channel that has delivered no deciding message yet.
- ProviderLimits.GetBoundedJson: logging, time-outs and closing the response.
- ApiSession.Session.RequestWithOneRefresh: requires stored credentials that are present to be text, as the type hints do; the caller's request function may not change the session map meanwhile; error texts are one outcome.
- DiffRoundTrip.ParseInvertsPrint: paths are already normalised, because normalising twice can give another path; inputs are already split into lines.
- CoverageGate.PercentInRange: percentages are exact reals.
- LockRoundTrip.ParseInvertsPrint: a marker may not itself contain a hash token or a source address; extras are not empty.
- Lock headers, `canonical_text_bytes`, the input digest and the tool lock.
- Domain services behind the routers (close, ledger, period lock, governance, server-side rotation), user interfaces, command lines, git, policy files and reports: plumbing, or not in these files.
