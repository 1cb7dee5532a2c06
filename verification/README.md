# Software factory verification

A Dafny model of the state-carrying parts of the autonomous multi-agent software factory, with proofs
about every input, every run or every reachable state. Five components are covered.

* **Expiring LRU cache** (`TtlCache*.dfy`, `TtlTable.dfy`). A class over an ordered entry list with the `_next_expiry`
  shortcut. Proved: the shortcut never changes a purge; two caches of different capacity stay in LRU
  inclusion; lazy purging is indistinguishable from eager purging exactly for timely lookups; the entry
  list and every answer are explained by the history of calls; and the cache refines a plain table of
  timestamped values, call by call.
* **Rate limiter** (`RateLimiter.dfy`). A tight bound on the requests granted in any half-open interval.
* **Fixture snapshot comparator** (`Snapshot*.dfy`, `WindowsSession.dfy`, `WindowsSnapshot.dfy`,
  `DirectoryPage.dfy`). The double collect protocol against an environment that may answer anything at any
  moment, what its verdicts certify and when they are wrong, the paged listing and handle discipline of the
  Windows session, the comparator run over that session down to native calls, and the raw directory buffer
  parser.
* **Wire and text formats** (`Bytes.dfy`, `ReadFixtureHead.dfy`, `Decimal.dfy`, `WriterResult.dfy`,
  `Manifest.dfy`, `Marker.dfy`). Encoders and validators as exact inverses; manifests and markers that cannot be confused.
* **Orchestrator** (`StateManager.dfy`, `Pipeline*.dfy`, `AuditFallback.dfy`, `NetworkRetry.dfy`). The
  persisted task record as a labelled transition system with crashes after any save, and `run_pipeline`,
  `resume_audit`, `resume_merge`, the audit and the retry wrapper as programs that refine it, save by save.

State that the sources update in place is a class or an array, and each such method is proved against a
specification function (`Step`, `Decide`, `ParseSpec`, `Observe`, `CollectFrom`, `Settle`, `Go`, ...); the
laws are then proved about those functions, in terms of what the calls, clocks, native entries and auditors
answered rather than of the functions themselves. Clocks, native calls, model answers, gate outcomes and git are
parameters: time-indexed functions or data about which nothing is assumed.

Where code and documentation disagree, the model follows the code:

* The repository's README.md:148-150 promises that a task suspended in `HUMAN_REVIEW` at `LOGIC_AUDIT` can
  be resumed with `--resume-audit`. The build loop enters `LOGIC_AUDIT` only on a fallback, so a first run
  whose only auditor is inconclusive cannot be resumed (`PrimaryReviewStuck`); `ResumableIff` gives the exact
  condition over whole runs.
* The inventory of a session takes 16 page calls including the end marker, hence at most 15 data pages
  (`InventoryExact`).
* The rate limiter satisfies the sharper bound max·(n+1)−1 for an interval of at most n windows, and
  attains it.
* The lazy cache equals the eager one for lookups at the current clock or later; an explicit `now` that is
  invalid or lies before the clock can expose the difference (`UntimelyGetObservable`).
* `accept_current` certifies the instant of the final listing iff every file that shows the same bytes at its
  two reads also shows them at that instant (`DoubleCollect`, `AcceptanceExact`); every fixture can be
  deceived where this fails (`ReturningContentsDeceive`). Contents that never return satisfy it. The sessions
  of `AcceptanceExact` meet the hypotheses of `DoubleCollect` and `VerdictIff`, for every fixture.
* After a static scan only the exit code for findings is branched on; the retry wrapper also sleeps after
  its last failed attempt.

## Model

| member | source | states |
|---|---|---|
| TtlCache.InsertIsReplace | src/cache/ttl_cache.py:129-132 | assigning a key in place and moving it to the end equals removing it and appending the new entry |
| TtlCache.PurgeIsScan | src/cache/ttl_cache.py:205-217 | while `_next_expiry` is a lower bound, the early-exit purge leaves exactly what an unconditional scan leaves, and the bound stays one |
| TtlCache.SetClosedForm | src/cache/ttl_cache.py:116-139 | a valid `set` yields the live entries without the key, plus the new one, minus at most one from the front; the bound holds before eviction |
| TtlCache.StepKeepsValid | src/cache/ttl_cache.py:116-217 | every operation keeps unique keys, size within capacity and `_next_expiry` below every stored expiry |
| TtlCache.TTLCache.constructor | src/cache/ttl_cache.py:102-111 | a new cache is empty and valid |
| TtlCache.TTLCache.Create | src/cache/ttl_cache.py:50-111 | construction succeeds exactly for a positive size and a positive ttl |
| TtlCache.TTLCache.PurgeExpired | src/cache/ttl_cache.py:205-217 | the collect, remove and re-minimise loops compute the specified purge |
| TtlCache.TTLCache.EvictOldest | src/cache/ttl_cache.py:136-139 | the eviction loop drops exactly the oldest surplus entries |
| TtlCache.TTLCache.Set | src/cache/ttl_cache.py:116-139 | in-place `set` is the specified step, invalid ttl included, and keeps the invariant |
| TtlCache.TTLCache.Get | src/cache/ttl_cache.py:141-155 | hit, expired miss with removal, plain miss and invalid `now` as specified; when each happens over histories is stated by `GetAnswers` and `StepRefines` |
| TtlCache.TTLCache.Delete | src/cache/ttl_cache.py:157-168 | removes the key and reports whether a live entry was there |
| TtlCache.TTLCache.Clear | src/cache/ttl_cache.py:170-174 | empties the cache and resets the shortcut |
| TtlCache.TTLCache.Contains | src/cache/ttl_cache.py:179-188 | membership of a live entry, without touching recency |
| TtlCache.TTLCache.Len | src/cache/ttl_cache.py:190-194 | number of live entries after a purge |
| TtlCache.TTLCache.Keys | src/cache/ttl_cache.py:196-200 | live keys in recency order |
| TtlCacheLaws.InclusionStep | src/cache/ttl_cache.py:116-217 | any operation at the same clock preserves inclusion of a smaller cache in a larger one, and its answer is dominated |
| TtlCacheLaws.LruInclusion | src/cache/ttl_cache.py:116-217 | for capacities k <= m and any program: order-preserving sublist, size difference at most m-k, every hit of the smaller is the same hit of the larger |
| TtlCacheLaws.LazyStep | src/cache/ttl_cache.py:116-217 | one timely operation gives the same answer on a lazily and an eagerly purged cache with the same live entries, and keeps them so |
| TtlCacheLaws.LazyRefinesEager | src/cache/ttl_cache.py:116-217 | over any run with nondecreasing clocks and timely lookups every answer equals that of the cache that drops expired entries before each operation |
| TtlCacheLaws.UntimelyGetObservable | src/cache/ttl_cache.py:141-155 | timeliness is necessary: every untimely lookup is told apart from the eager cache after some timely history |
| TtlCacheHistory.HistoryExplains | src/cache/ttl_cache.py:116-217 | after any history the entries are ordered by last successful get or set, and each carries value and expiry of its last surviving writer |
| TtlCacheHistory.HitReturnsLastWrite | src/cache/ttl_cache.py:141-155 | a hit returns the value of the last `set` not since deleted or cleared, at a time strictly before that writer's expiry |
| TtlCacheHistory.SetEvictsLeastRecentlyTouched | src/cache/ttl_cache.py:124-139 | a `set` evicts at most one entry; it is live, is not the key just set and was touched less recently than all that stay |
| TtlCacheHistory.LruRetention | src/cache/ttl_cache.py:124-139 | an entry not seen past its expiry is still present unless `max_size` distinct other keys were touched more recently |
| TtlCacheHistory.GetAnswers | src/cache/ttl_cache.py:141-155 | a `get` returns the value of the last writer of a kept key before its expiry, a miss when nothing is stored or the time has reached the expiry, an error for an invalid time |
| TtlCacheHistory.FlagAnswers | src/cache/ttl_cache.py:157-188 | `delete` and membership are true for a kept key before its expiry, and true only for a stored key before its expiry |
| TtlCacheHistory.ListAnswers | src/cache/ttl_cache.py:190-200 | `keys` lists stored unexpired keys only, all kept ones among them, in order of last touch; the length is their number |
| TtlTables.StepRefines | src/cache/ttl_cache.py:116-217 | one call of the cache is one call of a timestamped table without order, shortcut or lists: same answer, and the entries stay the slots in order of touch |
| TtlTables.TableDetermined | src/cache/ttl_cache.py:116-217 | that table leaves no choice: its next contents and its answer to every call are unique |
| TtlTables.CacheRefinesTable | src/cache/ttl_cache.py:116-217 | over every program from empty the cache gives exactly the answers of that table |
| RateLimiting.RateLimiter.constructor | src/security/rate_limiter.py:15-23 | a new limiter has no client state |
| RateLimiting.RateLimiter.Create | src/security/rate_limiter.py:15-23 | construction succeeds exactly for positive limits |
| RateLimiting.RateLimiter.Allow | src/security/rate_limiter.py:25-56 | state and answer are the specified decision on the old state |
| RateLimiting.CurrentWindow | src/security/rate_limiter.py:38-56 | the stored count is exactly the requests granted since the stored window start, between 1 and the maximum, and the start is the time of a request |
| RateLimiting.DenialIffWindowFull | src/security/rate_limiter.py:38-56 | a request is denied iff it falls in the current window and exactly the maximum was granted in it |
| RateLimiting.SlidingBound | src/security/rate_limiter.py:38-56 | for nondecreasing times, an interval of at most n windows holds at most max(n+1)-1 granted requests of a client |
| RateLimiting.SlidingBoundIsTight | src/security/rate_limiter.py:38-56 | for every limit and n a request sequence attains that bound |
| Bytes.Get16Iff | remediation/round37/stage_a_fixture/src/read_fixture_head_codec.cpp:16-26 | a 16-bit read returns v iff the bytes are the little-endian form of v |
| Bytes.Get32Iff | remediation/round37/stage_a_fixture/src/read_fixture_head_codec.cpp:20-32 | the same for 32 bits |
| Bytes.Put16 | remediation/round37/stage_a_fixture/src/read_fixture_head_codec.cpp:16-19 | writes the little-endian form in place and nothing else |
| Bytes.Put32 | remediation/round37/stage_a_fixture/src/read_fixture_head_codec.cpp:20-22 | writes the little-endian form in place and nothing else |
| Bytes.HexInjective | remediation/round37/stage_a_fixture/src/windows_snapshot.cpp:98-104 | the hexadecimal form of a file identifier determines it |
| ReadFixtureHead.WriteHeader | remediation/round37/stage_a_fixture/src/read_fixture_head_codec.cpp:37-42 | fills exactly the first twelve bytes with magic, version, kind and total |
| ReadFixtureHead.WriteCommonResponse | remediation/round37/stage_a_fixture/src/read_fixture_head_codec.cpp:43-53 | fills exactly the response prefix with all its fields in order |
| ReadFixtureHead.EncodeRequest | remediation/round37/stage_a_fixture/src/read_fixture_head_codec.cpp:56-65 | the buffer written field by field is the request wire, stated byte by byte |
| ReadFixtureHead.EncodeVerifiedSuccessResponse | remediation/round37/stage_a_fixture/src/read_fixture_head_codec.cpp:81-97 | the success wire, stated byte by byte, for the two permitted payload lengths, otherwise invalid trusted input |
| ReadFixtureHead.EncodeGenericErrorResponse | remediation/round37/stage_a_fixture/src/read_fixture_head_codec.cpp:99-106 | the buffer written field by field is the error wire, stated byte by byte |
| ReadFixtureHead.RequestClassification | remediation/round37/stage_a_fixture/src/read_fixture_head_codec.cpp:67-79 | a request is accepted with nonce n iff it is the encoding of n and the trusted digest; mismatch iff it encodes another digest; malformed iff it is no encoding |
| ReadFixtureHead.SuccessIff | remediation/round37/stage_a_fixture/src/read_fixture_head_codec.cpp:108-144 | framed with success fields iff it is the success encoding of its own fields, which are unique |
| ReadFixtureHead.ErrorIff | remediation/round37/stage_a_fixture/src/read_fixture_head_codec.cpp:108-144 | framed with error fields iff it is the error encoding of its own fields, which are unique |
| ReadFixtureHead.ResponseClassification | remediation/round37/stage_a_fixture/src/read_fixture_head_codec.cpp:108-144 | each of the four verdicts on a response wire holds iff the wire is the expected success encoding, the expected error encoding, another encoding, or none |
| DecimalText.DecimalIsCanonical | remediation/round37/stage_a_fixture/src/contracts.cpp:115-134 | decimal text has no leading zero and its value is the number |
| DecimalText.CanonicalIsDecimal | remediation/round37/stage_a_fixture/src/contracts.cpp:115-134 | every canonical digit string is the decimal text of its value |
| WriterResults.GuardExact | remediation/round37/stage_a_fixture/src/contracts.cpp:128-132 | the guard before the multiplication holds iff the next value stays within 1048576, and then nothing overflows 32 bits |
| WriterResults.ParseCount | remediation/round37/stage_a_fixture/src/contracts.cpp:126-132 | the digit loop accepts exactly the canonical decimals up to the maximum followed by the closing brace |
| WriterResults.ParseWriterResult | remediation/round37/stage_a_fixture/src/contracts.cpp:115-134 | accepts exactly the printed forms of 64 hexadecimal digits and a count in range, returns what was printed, and reports oversize iff the input is longer than the limit |
| WriterResults.PrintInjective | remediation/round37/stage_a_fixture/src/contracts.cpp:115-134 | different results print differently |
| Manifests.MutableDigest | remediation/round37/stage_a_fixture/src/contracts.cpp:57-67 | fails iff some name is invalid or the hash provider throws on a content or on the manifest, otherwise hashes the manifest of the whole map |
| Manifests.ListingUnique | remediation/round37/stage_a_fixture/src/contracts.cpp:57-67 | the ordered listing of a map is unique |
| Manifests.LineUnambiguous | remediation/round37/stage_a_fixture/src/contracts.cpp:62-65 | a manifest line determines name, length, content hash and where the next line starts |
| Manifests.ManifestUnambiguous | remediation/round37/stage_a_fixture/src/contracts.cpp:57-67 | two valid maps have equal manifests iff they have the same names with equal lengths and content hashes |
| Manifests.DigestBinds | remediation/round37/stage_a_fixture/src/contracts.cpp:57-67 | two valid maps have equal digests iff they have equal summaries or these two manifests collide; given equal digests, the maps are equal iff neither the manifests nor two contents of one name collide |
| Markers.Quote | remediation/round37/stage_a_fixture/src/contracts.cpp:26-34 | the loop fails iff a control character occurs, otherwise yields the escaped string in quotes |
| Markers.QuotedUnambiguous | remediation/round37/stage_a_fixture/src/contracts.cpp:26-34 | a quoted string determines its content and where it ends, whatever follows |
| Markers.RenderP11 | remediation/round37/stage_a_fixture/src/contracts.cpp:107-113 | renders iff the P10 hash is 64 hexadecimal digits and the quoted fields are free of control characters |
| Markers.MarkerBinds | remediation/round37/stage_a_fixture/src/contracts.cpp:107-113 | equal markers mean equal P10 hash, case, latest digest, generation, worker runs and terminal flag |
| DirectoryPages.ReadRecord | remediation/round37/stage_a_fixture/src/windows_snapshot.cpp:145-170 | the record at an offset is decoded as specified and the next offset stays inside the buffer |
| DirectoryPages.ParsePage | remediation/round37/stage_a_fixture/src/windows_snapshot.cpp:137-175 | the offset loop terminates on arbitrary bytes, reads only inside the buffer and computes the specified chain, errors included |
| DirectoryPages.AcceptedRecordsPlaced | remediation/round37/stage_a_fixture/src/windows_snapshot.cpp:140-171 | the n accepted records lie disjoint inside the buffer at increasing 8-aligned offsets, and 96(n-1)+90 <= size <= 65536 |
| DirectoryPages.LaidOutParses | remediation/round37/stage_a_fixture/tests/windows_snapshot_test.cpp:218-260 | every laid-out list of valid records followed by any bytes parses to exactly that list |
| DirectoryPages.AcceptedIsLaidOut | remediation/round37/stage_a_fixture/src/windows_snapshot.cpp:137-175 | every accepted buffer is a layout of some valid records with the views returned |
| DirectoryPages.PageRoundTrip | remediation/round37/stage_a_fixture/src/windows_snapshot.cpp:137-175 | the parser returns a list iff the buffer is within 65536 bytes and lays that list out, up to padding, ignored fields and trailing bytes |
| Snapshots.CheckEntries | remediation/round37/stage_a_fixture/src/snapshot.cpp:18-30 | the loop with its set of seen names reports the first fault of the listing |
| Snapshots.ListFaultIff | remediation/round37/stage_a_fixture/src/snapshot.cpp:18-30 | no fault iff every non-dot entry is a valid, unredirected, regular, expected child of the directory and no name repeats |
| Snapshots.FirstFaultIsBlamed | remediation/round37/stage_a_fixture/src/snapshot.cpp:18-30 | a faulty listing is blamed for its first faulty child, with the kind of error that is iff what is wrong with that child |
| Snapshots.SortLaws | remediation/round37/stage_a_fixture/src/snapshot.cpp:12-17 | sorting keeps every name with its multiplicity and leaves no name before a smaller one |
| Snapshots.SortSameIff | remediation/round37/stage_a_fixture/src/snapshot.cpp:83-84 | for listings without repetition, equal sorted names mean equal sets of names and conversely |
| Snapshots.CompleteIffDoubleCollect | remediation/round37/stage_a_fixture/src/snapshot.cpp:56-97 | the comparison completes with given bytes and digest iff both listings are clean with the same names, every identity shown at holding, in the second listing and at the end agrees, and both reads of every child gave those bytes |
| Snapshots.DoubleCollect | remediation/round37/stage_a_fixture/src/snapshot.cpp:59-104 | a complete observation of a truthful session shows exactly the names of the directory at the final listing, each still denoting the file that was held and read, and it shows the bytes of that one instant iff every file is steady between its two reads |
| Snapshots.NoReturnIsSteady | remediation/round37/stage_a_fixture/src/snapshot.cpp:71-93 | contents that never return to an earlier value are steady |
| Snapshots.FreezeFixture | remediation/round37/stage_a_fixture/src/contracts.cpp:69-80 | a fixture case carries the digests of its own files, under the same provider the comparator uses |
| Snapshots.VerdictIff | remediation/round37/stage_a_fixture/src/snapshot.cpp:94-104 | with such digests and steady files, each of the four conclusive verdicts holds iff the directory at the final listing was empty, the latest set, the old set, or none of these |
| SnapshotLaws.QuietIsComplete | remediation/round37/stage_a_fixture/src/snapshot.cpp:31-116 | against an unchanging acceptable directory the comparison completes with its exact contents |
| SnapshotLaws.AcceptanceExact | remediation/round37/stage_a_fixture/src/snapshot.cpp:59-104 | for every fixture and every world with acceptable listings a truthful session is accepted iff both reads of every child show its latest bytes, and then the directory at the final listing is current iff every file is steady |
| SnapshotLaws.ReturningContentsDeceive | remediation/round37/stage_a_fixture/src/snapshot.cpp:59-104 | for every fixture with valid names a truthful session is accepted although the directory was not current at the final listing; with two files or more it was current at no instant |
| WindowsSessions.AdmitAllIff | remediation/round37/stage_a_fixture/src/windows_snapshot.cpp:368-382 | a page is admitted iff the accumulated non-dot entries stay within 32, nonempty, unique and free of devices; then they are appended in order |
| WindowsSessions.InventoryExact | remediation/round37/stage_a_fixture/src/windows_snapshot.cpp:356-389 | an enumeration is returned iff an explicit end follows at most 15 nonempty pages whose concatenation minus dot entries is listable, and equals it |
| WindowsSessions.PathUnique | remediation/round37/stage_a_fixture/src/windows_snapshot.cpp:329-351 | the native answers determine the handles along the configured path |
| WindowsSessions.IdentityKeyBinds | remediation/round37/stage_a_fixture/src/windows_snapshot.cpp:105-107 | the key of a directory determines its volume serial, file identifier and path |
| WindowsSessions.WindowsSession.constructor | remediation/round37/stage_a_fixture/src/windows_snapshot.cpp:323-325 | a session starts owning nothing |
| WindowsSessions.WindowsSession.Destroy | remediation/round37/stage_a_fixture/src/windows_snapshot.cpp:326-328 | closes everything it owns in reverse order of opening |
| WindowsSessions.WindowsSession.VerifyNode | remediation/round37/stage_a_fixture/src/windows_snapshot.cpp:431-437 | succeeds iff the handle shows a directory with the expected, unredirected identity; otherwise the native error or identity drift |
| WindowsSessions.WindowsSession.Descend | remediation/round37/stage_a_fixture/src/windows_snapshot.cpp:335-343 | succeeds iff the component opens, holds its identity and binds to its parent; the handle is owned either way |
| WindowsSessions.WindowsSession.OpenVolume | remediation/round37/stage_a_fixture/src/windows_snapshot.cpp:330-333 | succeeds iff the volume root opens and holds its identity |
| WindowsSessions.WindowsSession.OpenNext | remediation/round37/stage_a_fixture/src/windows_snapshot.cpp:335-350 | extends the checked path by one component or shows that it cannot be extended |
| WindowsSessions.WindowsSession.Initialize | remediation/round37/stage_a_fixture/src/windows_snapshot.cpp:329-351 | succeeds iff the whole configured path opens and checks; then the session watches exactly its nodes and uses the last as directory |
| WindowsSessions.WindowsSession.DirectoryIdentity | remediation/round37/stage_a_fixture/src/windows_snapshot.cpp:352-355 | answers the configured key iff every watched node still holds |
| WindowsSessions.WindowsSession.Enumerate | remediation/round37/stage_a_fixture/src/windows_snapshot.cpp:363-388 | the page loops compute the specified collection of the pages seen |
| WindowsSessions.WindowsSession.ListNow | remediation/round37/stage_a_fixture/src/windows_snapshot.cpp:356-388 | succeeds iff every watched node holds and the enumeration does, with exactly its entries; the directory was listed from its start, page after page, to the explicit end |
| WindowsSessions.WindowsSession.Inventory | remediation/round37/stage_a_fixture/src/windows_snapshot.cpp:356-389 | succeeds iff the nodes hold and the enumeration does; each native entry is shown with its name, identifier and parent, as a directory iff its bit says so and as redirected iff its bit or a tag says so; only the first success records the inventory |
| WindowsSessions.WindowsSession.RecordAll | remediation/round37/stage_a_fixture/src/windows_snapshot.cpp:376-387 | the recorded map holds each listed entry under its name and no other name |
| WindowsSessions.WindowsSession.HoldChild | remediation/round37/stage_a_fixture/src/windows_snapshot.cpp:390-408 | succeeds iff the name was first listed, is described, stays inside the directory, is not yet held, and opens to the acceptable file that was listed; which error otherwise; owns the handle even on failure |
| WindowsSessions.WindowsSession.HeldIdentity | remediation/round37/stage_a_fixture/src/windows_snapshot.cpp:409-416 | succeeds iff the held handle still shows the same acceptable file, and answers the identifier first listed; which error otherwise |
| WindowsSessions.WindowsSession.ReadChild | remediation/round37/stage_a_fixture/src/windows_snapshot.cpp:417-420 | reads the handle that was opened and checked for the name, or reports that none is held |
| WindowsSessions.Lifetime | remediation/round37/stage_a_fixture/src/windows_snapshot.cpp:326-420 | on every path through opening, any use and destruction, each opened handle is closed exactly once, newest first |
| SnapshotRuns.SessionCalls.Read | remediation/round37/stage_a_fixture/src/snapshot.cpp:73 | every read of a child goes through the session object, which logs it with its answer |
| SnapshotRuns.SessionCalls.Hold | remediation/round37/stage_a_fixture/src/snapshot.cpp:65 | every hold goes through the session object, which logs it with its answer |
| SnapshotRuns.HoldOne | remediation/round37/stage_a_fixture/src/snapshot.cpp:63-70 | holds and identifies one child as specified, for any session that would give the logged answers, and reads nothing; a failing call is the last one and its failure is reported |
| SnapshotRuns.HoldAll | remediation/round37/stage_a_fixture/src/snapshot.cpp:62-70 | every listed child is held and identified in order, the identities are recorded, and nothing is read meanwhile |
| SnapshotRuns.ReadAll | remediation/round37/stage_a_fixture/src/snapshot.cpp:71-79 | reads and hashes the children in order |
| SnapshotRuns.RereadOne | remediation/round37/stage_a_fixture/src/snapshot.cpp:87-93 | one child is identified against both listings and read again |
| SnapshotRuns.FinalAll | remediation/round37/stage_a_fixture/src/snapshot.cpp:87-93 | every child is checked again in the order of the second listing |
| SnapshotRuns.SecondHalf | remediation/round37/stage_a_fixture/src/snapshot.cpp:80-93 | second listing, names, directory identity and children, each fault as specified |
| SnapshotRuns.ObserveSession | remediation/round37/stage_a_fixture/src/snapshot.cpp:56-97 | the log shows no read before every child of the first listing is held; a failing call is the last one and its failure is the one reported; the outcome is the specified one for every session that would give the logged answers |
| SnapshotRuns.CheckMarker | remediation/round37/stage_a_fixture/src/snapshot.cpp:39-53 | passes iff the process and the broker were reached, the marker could be hashed and the protected bytes are the marker of this case; which error for the first of these that fails |
| SnapshotRuns.Compare | remediation/round37/stage_a_fixture/src/snapshot.cpp:31-116 | a complete snapshot means process and broker reached, marker hashed and bound; each refusal reports its own error and leaves the session unused; a comparison that is not refused ends in the report of the observation of the opened session, or says why there is none |
| WindowsSnapshots.AgreesWithLog | remediation/round37/stage_a_fixture/src/snapshot.cpp:54-93 | every log is what some session answers, so what is said of all sessions that agree with a log is never empty |
| WindowsSnapshots.TracedIsTruthful | remediation/round37/stage_a_fixture/src/windows_snapshot.cpp:352-420 | a log of the Windows session whose native answers are true is a truthful session |
| WindowsSnapshots.NativeDoubleCollect | remediation/round37/stage_a_fixture/src/windows_snapshot.cpp:352-420 | a complete observation shows the names of the native directory when the final enumeration began, and its bytes iff every file is steady around that moment |
| WindowsSnapshots.CompleteIsExamined | remediation/round37/stage_a_fixture/src/windows_snapshot.cpp:352-420 | behind a complete observation both native enumerations showed expected, plain, unredirected files only, every watched directory was intact twice, and every child was the same protected regular file of the directory once between the enumerations and once after |
| WindowsSnapshots.ObserveWindows | remediation/round37/stage_a_fixture/src/windows_snapshot.cpp:326-420 | running the comparator over the Windows session: in every truthful native world whose contents do not return, a complete result is the directory at one moment of the comparison; and it was examined as `CompleteIsExamined` says |
| StateManagers.StateManager.constructor | orchestrator/state_manager.py:65-73 | loads the record, creates a fresh one or marks an interrupted one; what is saved |
| StateManagers.StateManager.DoTransition | orchestrator/state_manager.py:101-116 | moves the state, appends the transition and saves once |
| StateManagers.StateManager.SetStatus | orchestrator/state_manager.py:118-120 | changes only the status and saves once |
| StateManagers.StateManager.HaltHuman | orchestrator/state_manager.py:179-202 | the two records saved by a halt, in order |
| StateManagers.StateManager.RequestHumanReview | orchestrator/state_manager.py:204-214 | the three records saved by a review request, in order |
| StateManagers.StateManager.RegisterWorkerRun | orchestrator/state_manager.py:122-140 | counts a run iff both worker budgets allow it, otherwise halts; every saved record in order |
| StateManagers.StateManager.ConsumeSpecSyntaxRetry | orchestrator/state_manager.py:145-152 | charges a retry, then halts iff the budget is exceeded; every saved record in order |
| StateManagers.StateManager.ConsumeReplan | orchestrator/state_manager.py:154-177 | charges, saves, then opens an epoch or halts; every saved record in order |
| StateManagers.StateManager.RecordAuditModel | orchestrator/state_manager.py:235-241 | changes only the recorded model and saves once |
| Pipeline.LevelEvidence | orchestrator.py:261-349 | the level reached by a build is backed by labels in order since the last worker run |
| Pipeline.RunsAreSafe | orchestrator.py:187-521 | in every run, with crashes and restarts, control point and record are consistent with the level of the current build |
| Pipeline.MergedDirectly | orchestrator.py:351-417 | the point before completion is entered only by a successful merge, at once or after the recovery transition |
| Pipeline.CompletionSafety | orchestrator.py:261-359 | whenever `COMPLETED` is written the state is `AUTO_MERGE` and since the last worker run the build passed diff gate, tests, finding filter, audit and fast-forward merge, in this order |
| Pipeline.OnlyCompleteCompletes | orchestrator/state_manager.py:118-120 | no other step writes `COMPLETED` |
| Pipeline.SilentKeepsRecord | orchestrator.py:237-349 | the steps that save nothing leave the record as it is |
| Pipeline.CompletedWithEvidence | orchestrator.py:351-521 | every reachable record marked `COMPLETED` got the mark at a completion backed by that evidence |
| PipelineBudgets.RunsAreBudgeted | orchestrator/state_manager.py:122-177 | the budget invariants hold in every reachable state, also between the two saves of a replan |
| PipelineBudgets.LifetimeBudget | orchestrator/state_manager.py:122-177 | attempts per epoch, epochs and total worker runs are bounded by the configured budgets in every reachable record |
| PipelineBudgets.ReplanConservation | orchestrator/state_manager.py:154-177 | replans used, plus one in `HUMAN_REVIEW`, never exceed the worker runs |
| PipelineBudgets.RunsAreCounted | orchestrator/state_manager.py:137-139 | the recorded total is exactly the number of worker runs that happened |
| PipelineBudgets.WorkerRunsBounded | orchestrator.py:261-349 | over the whole life of a task the worker runs at most min(max_cumulative, max_per_epoch(1+max_logic+max_security)) times |
| PipelineBudgets.ResumableIff | orchestrator/state_manager.py:279-313 | a suspended record of any run can be resumed iff some review request of that run came from an audit that had fallen back or was resumed |
| PipelineBudgets.ResumableOnlyAfterFallback | orchestrator.py:108-111 | without any availability fallback no record of any run can be resumed for audit |
| PipelineBudgets.PrimaryReviewStuck | README.md:148-150 | an inconclusive primary audit of a first run suspends in `HUMAN_REVIEW` at `LOGIC_AUDIT` and yet cannot be resumed |
| PipelineTrails.RunsStayOnCourse | orchestrator.py:187-521 | in every run the control point is one that the entry point of the current process leads to, with specification and worktree as far as that point needs |
| PipelineTrails.WorkerRunsArePrepared | orchestrator.py:237-263 | the worker runs only in a `run_pipeline` process whose specification was valid and whose worktree was made |
| PipelineTrails.RecoveryMergesOnAncestor | orchestrator.py:494-513 | a `resume_audit` process begins to merge only right after the base was found to be an ancestor |
| PipelineTrails.AccountsAreExact | orchestrator/state_manager.py:145-177 | in every run, crashes included, security replans are exactly true positives plus FAIL audits, logic replans exactly rejections without an attempt left, and epochs exactly one plus the replans within limits less those a crash lost |
| NetworkRetry.Pause | adapters/network_retry.py:84-95 | the sleep for an attempt, with Retry-After and the cap, and the doubled delay |
| NetworkRetry.RetryWithBackoff | adapters/network_retry.py:54-105 | the outcome is that of the first settling attempt; attempts are within max_retries and the sleeps are exactly those of the attempts before it |
| NetworkRetry.TransportIff | adapters/network_retry.py:60-105 | the transport error is raised iff no attempt settles |
| NetworkRetry.DecisiveOutcome | adapters/network_retry.py:60-82 | a value returned by the first settling call comes back, a permanent exception is passed on, a delay that cannot be slept breaks the wrapper |
| NetworkRetry.RetriedIff | adapters/network_retry.py:22-82 | a call is tried again iff it timed out, lost its connection or met status 429, 502, 503 or 504, and the pause can be slept |
| NetworkRetry.WaitMeaning | adapters/network_retry.py:84-95 | a pause is what the server asked for if positive, otherwise initial delay times factor to the number of earlier failures, cut at the maximum |
| NetworkRetry.LastCodeMeaning | adapters/network_retry.py:62-105 | the code of the transport error is that of the last HTTP failure, and absent iff there was none |
| NetworkRetry.PropagatedIsPermanent | adapters/network_retry.py:22-82 | an exception passed on is never a transient one |
| NetworkRetry.WaitedBound | adapters/network_retry.py:84-95 | every sleep lies between zero and max_delay |
| NetworkRetry.SumBound | adapters/network_retry.py:84-95 | n such sleeps take at most n max_delay in all |
| AuditFallback.Candidates | orchestrator.py:90-98 | the loop builds the primary followed by the usable fallbacks |
| AuditFallback.UsableExact | orchestrator.py:94-98 | exactly the fallbacks that name a provider and a model are used, each once, in the configured order |
| AuditFallback.Decider | orchestrator.py:103-185 | all candidates before the decider are unavailable, and the decider is unavailable only if it is the last |
| AuditFallback.ResultMeaning | orchestrator.py:113-176 | what a candidate contributes, iff by iff, in terms of the raw call that settled: PASS, SIMULATED, FAIL, inconclusive, unavailable or broken |
| AuditFallback.DeciderDecides | orchestrator.py:103-146 | the decider is the first candidate that is unsupported or was reached, or the last one; all before it are supported and unreachable |
| AuditFallback.AuditObeysLaw | orchestrator.py:149-185 | verdict and record follow what the deciding candidate answered: passing costs nothing and records its model, FAIL charges exactly one security replan, inconclusive or unreachable goes to review, everything else halts |
| AuditFallback.AppendedFallbacksIrrelevant | orchestrator.py:103-185 | appending fallbacks changes neither record nor verdict of a decided audit |
| AuditFallback.OnlyFailCosts | orchestrator.py:149-185 | only FAIL touches budgets, attempts or epoch, charging one security replan; only a pass records the model |
| AuditFallback.Ask | orchestrator.py:113-146 | one candidate through the retry wrapper within its bounds; an unsupported provider gets no attempt; what the result means is stated by `ResultMeaning` |
| AuditFallback.EconomicalSleep | adapters/network_retry.py:60-105 | a candidate costs at most max_retries attempts and max_retries max_delay of sleep |
| AuditFallback.SettleRecord | orchestrator.py:149-185 | the state manager calls for each result give the specified record and save the specified records in order |
| PipelineRun.GoIsRun | orchestrator.py:187-521 | what the programs do is a run of the transition system |
| PipelineRun.InvocationIsRun | orchestrator.py:187-521 | an entry point invoked after any history prolongs it, so every law of runs holds at its end |
| PipelineRun.SavesAreStates | orchestrator/state_manager.py:98-99 | the records a program saves are, in order, the disks of later and later states of the system |
| PipelineRun.CrashAfterSave | orchestrator/state_manager.py:98-99 | stopping an entry point right after any of its saves, after any history, ends a run of the system on exactly that record |
| PipelineRun.Consult | orchestrator.py:103-146 | exactly the candidates up to the decider are asked, each within its retry budget, with one transition per fallback |
| PipelineRun.ExecuteAudit | orchestrator.py:66-185 | passes iff the deciding candidate is supported and its settling call returned PASS, or SIMULATED in a simulated run; the record obeys the audit law on the raw calls; calls and sleeps are bounded per candidate |
| PipelineRun.SpendReplan | orchestrator.py:328-331 | charging a replan leads back to the loop or out, as the system does |
| PipelineRun.RetryBuild | orchestrator.py:288-312 | retry in the epoch if attempts remain, otherwise exactly one logic replan |
| PipelineRun.RegisterRun | orchestrator.py:262-264 | counts exactly one worker run iff both worker budgets allow it, otherwise halts without counting |
| PipelineRun.RunWorker | orchestrator.py:262-282 | one run is counted, strictly spending the cumulative budget, iff the budgets allow it, and the build goes to the diff gate; otherwise halts |
| PipelineRun.RunGates | orchestrator.py:281-331 | goes on to the audit iff diff gate and tests pass and no finding is a true positive, spending nothing; otherwise the exact cost of the rejection |
| PipelineRun.RunTests | orchestrator.py:295-331 | the same from the tests on: failed tests retry or charge a logic replan, a true positive charges a security replan |
| PipelineRun.FilterFindings | orchestrator.py:319-326 | findings are classified one by one up to the first true positive, which decides |
| PipelineRun.RunScan | orchestrator.py:314-331 | goes on to the audit iff there are no findings or none is a true positive; a true positive costs exactly one security replan |
| PipelineRun.RunFilter | orchestrator.py:318-331 | with findings, only a true positive replans |
| PipelineRun.BuildLoop | orchestrator.py:261-349 | terminates; it is passed only with a build that cleared gates and audit, at once if the first build clears; otherwise the system is at rest without completion |
| PipelineRun.AuditBuild | orchestrator.py:333-346 | a build leaves its audit passed iff the audit clears, goes back to the loop after a FAIL with a replan left, and ends otherwise |
| PipelineRun.JudgeBuild | orchestrator.py:281-346 | a build passes iff diff gate, tests and finding filter clear and its audit does; no worker run is spent on judging it |
| PipelineRun.BuildTurn | orchestrator.py:262-346 | one turn is passed iff the budgets allow the run and the build clears; every turn that goes on spends exactly one worker run |
| PipelineRun.Prepare | orchestrator.py:237-247 | passes iff the specification is valid, or valid on the retry with a retry left; charges the retry exactly if needed; otherwise halts |
| PipelineRun.MakeWorktree | orchestrator.py:249-255 | passes iff the worktree is made, with the record unchanged; otherwise halts |
| PipelineRun.EnterSpecGate | orchestrator.py:205-237 | the transitions before the specification gate |
| PipelineRun.PrepareRun | orchestrator.py:205-255 | reaches the build loop iff specification and worktree are in order, no budget but that of the specification touched; otherwise halted |
| PipelineRun.MergeAndComplete | orchestrator.py:351-361 | completes iff the merge succeeds; otherwise halts so that the merge can be recovered iff it was tried from `AUTO_MERGE` |
| PipelineRun.FinishRun | orchestrator.py:351-361 | a clear build completes iff its merge succeeds, otherwise halts recoverably |
| PipelineRun.BuildAndMerge | orchestrator.py:261-361 | completion means a clear build and its merge; a first build that clears and merges completes at once |
| PipelineRun.DrivePipeline | orchestrator.py:205-361 | writes `COMPLETED` only behind a valid specification, a worktree, a build whose gates cleared and whose deciding auditor returned PASS (SIMULATED under simulation), and its merge; and does so when the first build has all of them |
| PipelineRun.RunPipeline | orchestrator.py:187-361 | terminates for every world, with completion exactly backed as in `DrivePipeline`, with the record on which the launched system comes to rest and with exactly its saves |
| PipelineRun.MergeIfAncestor | orchestrator.py:494-521 | completes iff the base is still an ancestor and the merge succeeds; a diverged base halts with everything else unchanged |
| PipelineRun.AuditAndMerge | orchestrator.py:461-521 | completes iff the diff is computed, the audit clears on the raw calls, the base is still an ancestor and the merge succeeds; otherwise never completes, halting without diff or on divergence |
| PipelineRun.ResumeAudit | orchestrator.py:422-521 | completes iff the loaded record is suspended at the audit, git is ready and all of the above hold; a refused record stays as loaded; it ends where the system rests, with exactly its saves |
| PipelineRun.RecoverMerge | orchestrator.py:408-420 | a failed recovery merge leaves the record alone |
| PipelineRun.ResumeMerge | orchestrator.py:363-420 | completes iff the loaded record was halted by a failed merge, git is ready and the merge succeeds; otherwise the loaded record is untouched; its saves are those of the system |

## Left out

- Floating point: clocks, lifetimes and delays are real numbers with explicit infinities for expiry; rounding and NaN are not modelled, nor are infinite or NaN Retry-After headers.
- Threads and locks: each public cache or limiter method holds one lock throughout and is one atomic step; one process works on a task at a time.
- Cached `None` values: a hit on a stored `None` looks like a miss to a Python caller; the model keeps the two apart.
- Type checks of arguments that Dafny's types already make (key hashability, booleans passed as numbers).
- Allocation failure in the wire codec (`internal_failure`).
- Hash strength: SHA-256 enters only as a function with 64-character results that the provider may fail to deliver; collisions are named where they matter.
- UTF-16 conversion is a parameter of the page parser and the identity on the permitted component characters of the session; an absent buffer is not modelled.
- Evidence fields that only record what was seen (inventories, held identifiers, observation logs of the session), the P10 template and the texts of error details.
- Each session call of the comparator is one instant; changes during a single native read or listing are not modelled, except page by page in the session.
- A finished enumeration is taken to show the directory as it was when the enumeration began, and a handle to keep denoting the file it was opened for.
- NativeCalls: the Win32 and NT functions behind it answer arbitrarily; access masks and open options are not modelled.
- Git, worktrees, pytest, scanners and model services are nondeterministic outcomes; that nobody else edits the task branch is assumed.
- The failure-text test of `can_resume_merge` is dropped, which only permits more recoveries; timestamps, detail texts and report files are not part of the record.
- The provider stored beside the audit model, and the normalisation of provider names.
- AuthorizationPolicy, password and token validators, nonce wrapper, P10/P11 readers, writer result evidence, specification and diff gates, sanitiser: straight-line checks or string library behaviour that would only add easy members.
- Evidence stores, HMAC chains and reference compare-and-swap described in the documentation.
