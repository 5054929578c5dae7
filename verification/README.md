# Verified model of OpenBackup

OpenBackup is a deduplicating backup system. Agents cut files into chunks by
content, send the chunks a server does not have yet, and record file lists as
full and delta snapshots. This project models the parts that a backup's
correctness rests on, and proves what they promise.

Verify with `dafny verify dfyconfig.toml` (Dafny 4.11).

## How it is organised

The server's repository:

- `Repository` - the tables and blobs as one value, and every operation on them.
- `RepositoryInvariant` - what every reachable state satisfies: every delta has
  a complete parent of the same account and device within 64 links, references
  of complete snapshots have rows, rows have blobs.
- `Tree` - the effective file list of a snapshot, as a fold over its chain and
  as the query that computes it; a complete snapshot stays restorable and
  unchanged over whole runs.
- `History` - why a snapshot, a chunk, a device or an account is as it is: what
  each step does to it and to nothing else, in terms of rows, references and
  parent links, and what that says of the steps of a whole run.
- `Pages`, `Paths` - reading that list page by page.
- `Store` - the same operations as methods that change tables, proved to do
  what `Repository` says.
- `RetentionPlan`, `Retention`, `Garbage` - the planner, the pass of cascading
  deletes it drives, and garbage collection.
- `RetentionWindow` - which snapshots a plan keeps, over start times and
  counts.
- `Interruption` - runs in which garbage collection deletes a blob and does not
  get to delete its row: what every step still keeps, and which snapshots can
  be restored.
- `Limits` - an answer that is wrong under an exact condition, and reachable
  states in which it and an interrupted collection do harm.
- `PutHandler` - the upload handler with its checks in their order.

The agent:

- `Chunking`, `Chunker` - content-defined cuts, and the buffered streaming
  chunker that finds them for every way a reader can portion its bytes.
- `CutPoints` - where those cuts are, from the configuration and the gear table.
- `FlushBatch` - one batch of an upload as a concurrent state machine of
  dispatcher, workers, cancellation and first error.
- `WorkerPool` - how many requests run at once, and which error is reported.
- `Codec`, `UploadRestore` - the blob format, uploading a file, restoring it.
- `EndToEnd` - agent and server together: an upload, the batch that records
  it, completion, and a restore in any later state of a run.
- `Glob`, `Pattern`, `IgnoreMatcher`, `Scanner` - ignore rules, and the walk
  that prunes by them while it discovers projects.
- `GlobLaws`, `PatternLaws`, `IgnoreLaws` - what patterns, rules and lists of
  rules mean, in the words of what people write into them.
- `Walks` - exactly what a walk emits and finds, with any rules and over
  several roots.
- `Watcher`, `TokenBucket` - the debounce loop and the upload throttle.

`SemVer` models versions and the release decision. `Strings`, `Bytes`,
`Sequences` and `Wrappers` are shared vocabulary.

## Assumptions

- Each store call and the deletion of each collected chunk is one atomic step,
  except that a collection may stop between blob and row (`Interruption`). The
  checks and updates of StartSnapshot and CompleteSnapshot, and the
  list-then-delete of garbage collection, are separate statements in the
  program; the invariant does not survive arbitrary interleaving inside them.
- The rows of a snapshot in entries, deletions and snapshot_chunks are part of
  its row, so that they go when it goes.
- A reader never returns no bytes without an error. The gear table of the
  chunker is any table of 256 numbers; the calendar of the planner is any
  assignment of instants to days, weeks and months.
- Compression, authenticated encryption and hashing are parameters with the
  laws of `Codec.Lawful`: decompression and opening undo their counterparts;
  the beginning of a compressed text does not decompress to the whole; the
  beginning of a sealed text, if it opens, opens to a beginning of the text; and
  no two contents share a digest. Hashing a stream piece by piece gives the hash
  of the whole.
- In `FlushBatch` the server only gains chunks while a batch is in flight. In
  `UploadRestore` nobody else changes the server during one upload; its answer
  about missing chunks may be anything, and the upload says what it relied on.
- In the last two results of `EndToEnd` the agents of a run share one key or
  use none, and a blob is within the 64 MiB that a request delivers.
- Text is a sequence of bytes, and white space is the ASCII kind.
- Ignore rules are matched case-sensitively, and names contain neither slash
  nor backslash.
- In `Watcher` a timer is set at the instant the event was read, and times
  never go back. In `TokenBucket` quantities are exact reals.

## Where the program differs from its own words

- A comment at internal/ignore/pattern.go:210 says that an unterminated class
  is treated as a literal bracket. The code matches nothing, and so does
  `Glob.MatchClass`.
- The comment at internal/server/maintenance/maintenance.go:209-212 says that
  a row whose blob is missing is seen as unreferenced by the next pass. That
  holds until a new snapshot refers to the chunk, which nothing prevents:
  `Limits.AnInterruptedPassCanLoseAChunk`. Over every run with interruptions a
  complete snapshot can be restored if and only if each chunk that a
  collection was interrupted at has a blob again or is not in its tree
  (`Interruption.RunsRestorableBut`), and every one can as long as no batch of
  entries names a chunk whose blob is missing
  (`Interruption.GuardedRunsStayRestorable`, `Interruption.OnlyAddsRefer`).
- The answer to "which of these do you not have" can leave out a chunk that is
  not stored: `Limits.AFailedSnapshotBlocksTheNext`, with the exact condition
  in `Limits.AnsweredIsStored`.
- Decode accepts chunks of 64 MiB, but a request delivers at most 64 MiB of
  blob, header included: a blob that an agent made is readable if and only if
  chunk and blob are both within 64 MiB (`UploadRestore.ReadableExactly`).
- Version numbers that exceed 64 bits wrap around:
  `SemVer.WrappedNumbersCollide`. A numeric identifier is compared as Semantic
  Versioning says if and only if it is below 2^63
  (`SemVer.ComparedRightExactly`), and text that parses is the text of its
  version if and only if its numbers are (`SemVer.PrintedExactly`).
- Entries that a rule brings back are not reached below a skipped directory:
  `Walks.AskedForButPruned`. A walk emits an entry if and only if it and every
  directory above it are kept (`Walks.RootPrunedMeans`), so it emits all kept
  entries if and only if none lies below a skipped directory
  (`Walks.NothingMissedExactly`).
- Several roots share one table of projects, by paths below each root:
  `Walks.TwoRoots`. What an earlier root emitted is kept by the final table if
  and only if no project that was registered since overtakes it
  (`Walks.EarlierRootStaysExactly`).

## Model

| member | source | states |
|---|---|---|
| `Tree.RunsStayRestorable` | internal/server/store/snapshots.go:189-220 | In every state of every run, each chunk of each file in the effective tree of each complete snapshot is in the blob store. |
| `Tree.RunsKeepTree` | internal/server/store/snapshots.go:103-112 | From the state in which a snapshot is complete, for as long as it is not deleted, it stays complete with the same tree and the same bytes behind it, whatever steps run. |
| `Tree.StepKeepsTree` | internal/server/store/snapshots.go:208-212 | Any single step deletes a complete snapshot or leaves its tree and its blobs as they were. |
| `Tree.CompleteIsRestorable` | internal/server/store/snapshots.go:224-245 | Under the invariant a complete snapshot is restorable: references have rows, rows have blobs, ancestors are complete. |
| `RepositoryInvariant.RunsKeepInv` | internal/server/store/db.go:138-191 | Every state of every run from the empty repository satisfies the invariant. |
| `RepositoryInvariant.StepKeepsInv` | internal/server/store/db.go:138-191 | Each of the thirteen kinds of step keeps the invariant. |
| `RepositoryInvariant.ChainNeverFails` | internal/server/store/snapshots.go:378-411 | Resolving a stored snapshot never fails: its chain is acyclic, has at most 64 rows, starts in a full snapshot and ends in the one asked for. |
| `RepositoryInvariant.ChainRow` | internal/server/store/snapshots.go:72-87 | Every ancestor of a snapshot is complete and belongs to the same account and device. |
| `RepositoryInvariant.StartKeepsInv` | internal/server/store/snapshots.go:22-66 | Starting a snapshot keeps chains short and parents complete, whatever parent is asked for. |
| `RepositoryInvariant.DeltaWhenPossible` | internal/server/store/snapshots.go:32-48 | A delta is started exactly when the parent is complete, of the same account and device, and has room in its chain; otherwise the snapshot is full. |
| `RepositoryInvariant.CascadeKeepsInv` | internal/server/store/retention.go:76-114 | Deleting a snapshot with everything chained onto it leaves no delta without its parent. |
| `RepositoryInvariant.DeleteDeviceKeepsInv` | internal/server/store/devices.go:202-205 | Removing a device with its snapshots breaks no chain of another device. |
| `RepositoryInvariant.CollectKeepsInv` | internal/server/maintenance/maintenance.go:213-250 | Collecting chunks that no snapshot references keeps the invariant. |
| `RepositoryInvariant.FailStaleKeepsInv` | internal/server/store/snapshots.go:253-262 | Failing stale snapshots keeps the invariant. |
| `RepositoryInvariant.AddKeepsInv` | internal/server/store/snapshots.go:92-183 | Adding entries keeps every chunk of every entry among the references of the snapshot. |
| `RepositoryInvariant.BatchIsAllOrNothing` | internal/server/store/snapshots.go:119-165 | A batch of entries is accepted exactly when every path in it is clean. |
| `RepositoryInvariant.LastItemWins` | internal/server/store/snapshots.go:124-138 | When a batch names a path twice the last item stays. |
| `Tree.AddEntriesShows` | internal/server/store/snapshots.go:140-183 | Added entries show in the tree of the running snapshot unless it deletes their path, deleted paths are gone, and every other path is as before. |
| `Tree.QueryIsFold` | internal/server/store/snapshots.go:556-590 | The MAX(seq) query over a chain equals the fold: overridden by entries, then reduced by deletions, snapshot by snapshot; a deletion wins within one snapshot. |
| `Store.Store.SnapshotChain` | internal/server/store/snapshots.go:378-411 | The loop over parent links, reversed at the end, finds the chain of the recursive definition and its errors. |
| `Store.Reverse` | internal/server/store/snapshots.go:794-798 | Swapping from both ends reverses. |
| `Store.Store.StartSnapshot` | internal/server/store/snapshots.go:22-66 | The method does to the whole repository what the operation says, answers the same, and keeps the invariant. |
| `Store.Store.AddEntries` | internal/server/store/snapshots.go:92-183 | The transaction over a batch does to the whole repository what the operation says; an invalid path leaves everything as it was. |
| `Store.Store.UpsertItems` | internal/server/store/snapshots.go:119-160 | The loop over items upserts the entries and inserts all their chunk references, or reports an invalid path. |
| `Store.Store.InsertDeletions` | internal/server/store/snapshots.go:162-176 | The loop over deleted paths records them all, or reports an invalid path. |
| `Store.Store.CompleteSnapshot` | internal/server/store/snapshots.go:189-220 | A running snapshot becomes complete exactly when no reference lacks a row and the agent reports no error, and failed otherwise; the answer says which, or that it does not run. |
| `Store.Store.FailStaleSnapshots` | internal/server/store/snapshots.go:253-262 | Exactly the running snapshots without activity since the cutoff become failed. |
| `Store.Store.DeleteDevice` | internal/server/store/devices.go:202-205 | A device of the account goes together with its snapshots; any other is reported as not found and nothing changes. |
| `Store.Store.Subtree` | internal/server/store/retention.go:83-97 | The recursive query outputs every snapshot that builds on the victim, each once. |
| `Store.Store.DeleteSnapshotCascade` | internal/server/store/retention.go:76-114 | Deleting row by row removes exactly the victim and what builds on it, and the count is their number. |
| `Store.Store.DeleteSnapshot` | internal/server/store/snapshots.go:716-766 | The same behind an ownership check. |
| `Store.Store.RegisterChunk` | internal/server/store/chunks.go:17-34 | A malformed digest is rejected; else the chunk row is written once and the account row always, unless the database fails. |
| `PutHandler.HandlePutChunk` | internal/server/httpapi/agent.go:253-326 | Digest form, presence, quota, body, decoding, content and encryption are checked in this order, and each answer is given exactly when its check is the first to fail; then blob first, row second. Success means stored, registered and known; no blob is replaced, and a new one has the content of its digest as far as the server can tell. |
| `PutHandler.Refusal` | internal/server/httpapi/agent.go:270-308 | A new chunk is let through exactly when there is room, there is a body, and its content is that of its digest, or sealed where only that is allowed; otherwise the answer is that of the first check that fails. |
| `Store.Store.MissingChunks` | internal/server/store/chunks.go:42-101 | The batched loops return the unknown digests, each once, in the order asked. |
| `Store.MissingOf` | internal/server/store/chunks.go:42-101 | A digest is answered exactly when it was asked for and the account does not know it; no digest is answered twice. |
| `Store.Store.UnreferencedChunks` | internal/server/store/chunks.go:135-156 | As many unreferenced chunks as the limit allows, each once, and all of them when they fit. |
| `Store.Store.DeleteChunkRow` | internal/server/store/chunks.go:159-165 | The row of a chunk and its account rows go, nothing else. |
| `Limits.AnsweredIsStored` | internal/server/store/chunks.go:36-41 | The answer leaves out only stored chunks if and only if no snapshot of the account, of any status, references an asked digest that is not stored. |
| `Limits.AFailedSnapshotBlocksTheNext` | internal/server/store/chunks.go:60-74 | A reachable state in which a failed snapshot makes a chunk count as known that is not stored: nothing is to be uploaded, and the next snapshot fails. |
| `Interruption.StepKeepsInvBut` | internal/server/maintenance/maintenance.go:213-250 | Every enabled step keeps the invariant except for the blobs of the interrupted chunks, and makes no further blob go missing. |
| `Interruption.RunsKeepInvBut` | internal/server/maintenance/maintenance.go:213-250 | The same over every run in which collections may be interrupted between blob and row, at any unreferenced chunk, any number of times. |
| `Interruption.RestorableBut` | internal/server/maintenance/maintenance.go:209-212 | Under that invariant a complete snapshot, whenever it was completed, can be restored if and only if each interrupted chunk has a blob again or is not in its tree. |
| `Interruption.RunsRestorableBut` | internal/server/maintenance/maintenance.go:209-212 | The same equivalence in every state of every run with interruptions. |
| `Interruption.RunGoesOn` | internal/server/maintenance/maintenance.go:213-250 | What a pass of garbage collection did continues any such run, so that the above holds after it. |
| `Interruption.OnlyAddsRefer` | internal/server/store/snapshots.go:92-183 | An unreferenced chunk becomes referenced exactly by an accepted batch of entries that names it. |
| `Interruption.GuardedRunsStayRestorable` | internal/server/maintenance/maintenance.go:209-212 | While no batch of entries names a chunk whose blob is missing, every complete snapshot can be restored in every state of the run. |
| `Interruption.NextPassRepairs` | internal/server/maintenance/maintenance.go:209-212 | While nothing refers to the chunk, the next pass completes the interrupted one. |
| `Garbage.CleanPassRepairs` | internal/server/maintenance/maintenance.go:209-212 | A pass in which nothing is refused restores the whole invariant, if no snapshot refers to a chunk whose blob is missing. |
| `Limits.AnInterruptedPassCanLoseAChunk` | internal/server/maintenance/maintenance.go:209-212 | A reachable state in which a snapshot refers to the chunk first: it completes without being restorable. |
| `Strings.PrefixIsRange` | internal/server/store/snapshots.go:527-548 | p+"/" <= s < p+"0" in bytewise order exactly when s starts with p+"/". |
| `Pages.WantedIsUnderPrefix` | internal/server/store/snapshots.go:527-548 | The range scan selects the path itself and everything under it. |
| `Pages.TreeRange` | internal/server/store/snapshots.go:523-629 | One page: the first rows after the cursor of the one ordered listing of the tree under the prefix, and a cursor exactly when there are more. |
| `Pages.ListingIsUnique` | internal/server/store/snapshots.go:590-594 | A set of paths has one ordered listing. |
| `Pages.FetchAll` | internal/agent/restore/restore.go:110-198 | Following the cursors to the end yields the whole ordered list under the prefix, no path lost or repeated; the guard against repeating cursors never fires. |
| `Pages.TreeEntry` | internal/server/store/snapshots.go:633-645 | Looking up one path through a page of one row returns its entry exactly when the path is clean and in the tree. |
| `Paths.CleanIsStable` | internal/server/store/snapshots.go:770-791 | Cleaning a stored path changes nothing. |
| `RetentionPlan.PlanRetention` | internal/server/maintenance/plan.go:18-107 | With chains below the hop limit the plan keeps exactly the rows taken for their own sake and their ancestors, and is closed under parents. |
| `RetentionPlan.PlanDevice` | internal/server/maintenance/plan.go:46-105 | The loop with its three bucket counters marks exactly the rows that are forced, or considered and either unthinned or first in a free bucket, with their ancestors: the rows that RetentionWindow.KeptExactly describes by their start times. |
| `RetentionPlan.MarkKept` | internal/server/maintenance/plan.go:30-44 | Walking up until a kept row keeps the set closed and adds exactly the ancestors. |
| `RetentionPlan.Claim` | internal/server/maintenance/plan.go:74-99 | One bucket counter takes a row exactly when it is the newest considered row of one of the first so many buckets. |
| `RetentionPlan.FirstBucketsKept` | internal/server/maintenance/plan.go:46-105 | The newest considered row of each of the first KeepDaily days, KeepWeekly weeks and KeepMonthly months is kept. |
| `RetentionPlan.NewestAndPinnedKept` | internal/server/maintenance/plan.go:61-63 | Every device keeps its newest snapshot, and every pinned snapshot is kept. |
| `RetentionPlan.KeptAreBounded` | internal/server/maintenance/plan.go:72-103 | With counts set, the kept rows of a device that are neither forced nor needed by another row kept for its own sake number at most the sum of the counts. |
| `RetentionPlan.SlotsAreBounded` | internal/server/maintenance/plan.go:74-99 | A kind of bucket gives out no more slots than its count. |
| `Retention.SnapshotsForRetention` | internal/server/store/retention.go:29-57 | One row for each complete snapshot, each once, ordered by device and newest first. |
| `Retention.ChainsAreShort` | internal/server/maintenance/plan.go:33-34 | In a repository that satisfies the invariant the hop limit is never reached. |
| `Retention.CascadeSparesKept` | internal/server/maintenance/maintenance.go:194-200 | Deleting a snapshot that is not kept takes no kept one along. |
| `Retention.ApplyRetention` | internal/server/maintenance/maintenance.go:168-205 | Whatever fails or is cancelled, no kept snapshot goes, the count is the number of rows removed, and only snapshots go that build on, or are, a complete one that is neither kept nor stuck; unless cancelled exactly these go, so that with nothing stuck exactly the kept complete snapshots remain. |
| `Retention.PinnedAndNewestSurvive` | internal/server/maintenance/maintenance.go:161-167 | After any pass every pinned snapshot is still there, and so is a newest one of each device. |
| `Garbage.CollectGarbage` | internal/server/maintenance/maintenance.go:213-250 | The loop ends, whatever blobs and rows cannot be deleted and wherever it is cancelled; only unreferenced chunks go, deleted and freed are right, and what happened is a row of collections and interruptions. Unless it is cancelled, or a whole batch of chunks is refused, exactly the unreferenced chunks go that are not refused, and exactly the stuck rows lose their blobs. |
| `Garbage.CollectBatch` | internal/server/maintenance/maintenance.go:222-238 | One batch: each chunk that is not refused goes, a stuck row loses its blob only, and progress is counted. |
| `Garbage.LastBatch` | internal/server/maintenance/maintenance.go:239-248 | After a short batch nothing but refused chunks is left, and a batch without progress is all refused. |
| `Chunker.Chunker.Next` | internal/chunk/fastcdc.go:118-133 | The next chunk is the first chunk of everything pending, at the right offset, however the reader portions it; an error is reported exactly when a read fails, and loses nothing. |
| `Chunker.Chunker.Fill` | internal/chunk/fastcdc.go:136-160 | Compaction and refill change nothing about what is pending, and end with Max bytes or the end of the stream, or fail exactly when a read does. |
| `Chunker.Cutpoint` | internal/chunk/fastcdc.go:163-193 | The two scanning loops find the cut of the definition, which CutPoints.CutExactly states from the configuration. |
| `Chunker.CutOfBuffer` | internal/chunk/fastcdc.go:118-133 | A buffer that is full, or holds all there is, shows the same first cut as the whole stream. |
| `Chunker.Drain` | internal/chunk/fastcdc.go:118-133 | Repeated Next over any fragmentation yields the chunks of Split on the whole content if no read fails, and the first of them if one does. |
| `Chunker.Split` | internal/chunk/fastcdc.go:197-214 | The in-memory form yields the pieces of the content with their offsets, or the configuration error. |
| `Chunking.CutFromIsFirst` | internal/chunk/fastcdc.go:163-193 | A cut is the first place after Min where the content asks for one; failing that the end or Max. |
| `Chunking.Thresholds` | internal/chunk/fastcdc.go:98-116 | The small threshold is positive; the large one is 16 times it, except that it is 0 for Avg 4 to 7. |
| `Chunking.PiecesConcat` | internal/chunk/fastcdc.go:197-214 | The chunks concatenate to the content. |
| `Chunking.PieceLengths` | internal/chunk/fastcdc.go:163-193 | Every chunk has at most Max bytes, and every chunk but the last at least Min. |
| `Chunking.OffsetsAreCorrect` | internal/chunk/fastcdc.go:197-214 | A chunk stands in the stream at its offset. |
| `Chunking.ChunksBeforeEdit` | internal/chunk/fastcdc.go:163-193 | Chunks wholly before an edit are unchanged, unless the last of them was the final chunk. |
| `Chunking.AppendKeepsAllButLast` | internal/chunk/fastcdc.go:163-193 | Appending bytes changes no chunk but the last. |
| `Chunking.Resynchronise` | internal/chunk/fastcdc.go:163-193 | Two streams with a boundary at the start of a common suffix have the same chunks from there on. |
| `Glob.MeaningIsMatches` | internal/ignore/pattern.go:118-129 | Matching is decided by whether some assignment of substrings to the stars spells the name. |
| `Glob.MatchSegment` | internal/ignore/pattern.go:130-179 | The iterative matcher with one backtrack point decides that meaning and ends. |
| `Glob.MatchClass` | internal/ignore/pattern.go:183-213 | A class is parsed with ranges and negation; an unterminated one matches nothing. |
| `Glob.ClassEnds` | internal/ignore/pattern.go:183-213 | A class ends at the first closing bracket after its first character, and is unterminated exactly when there is none. |
| `Glob.MatchesSomeName` | internal/ignore/pattern.go:130-179 | A pattern matches some name exactly when each token but the stars accepts some character; with an unterminated class it matches none. |
| `Pattern.MatchSegments` | internal/ignore/pattern.go:99-124 | The segment matcher, collapsing repeated **, decides the inductive meaning in which ** spans zero or more segments. |
| `Pattern.SomeSuffixMeans` | internal/ignore/pattern.go:109-113 | ** followed by a rest matches exactly when the rest matches some suffix of the path. |
| `Pattern.DoubleStarCollapses` | internal/ignore/pattern.go:102-105 | Two ** in a row say no more than one. |
| `Pattern.Match` | internal/ignore/pattern.go:74-93 | A pattern holds of an entry: directory rules only of directories, unanchored rules from any depth. |
| `Pattern.ParsedExactly` | internal/ignore/pattern.go:29-56 | A line compiles to a rule if and only if it is the text of that rule, spaces trimmed and backslashes read as slashes: the mark is the negation, a slash at the end the restriction to directories, a slash at the front or between segments the anchor; blank lines, comments and bare marks and slashes compile to nothing. |
| `Pattern.ParsePattern` | internal/ignore/pattern.go:29-56 | What compiles has segments; an unanchored pattern is one non-empty segment without a slash. |
| `Pattern.UnanchoredIsDoubleStar` | internal/ignore/pattern.go:85-93 | An unanchored pattern matches exactly when the same pattern anchored behind ** does. |
| `Pattern.AnyDepthMatchesAnywhere` | internal/ignore/defaults.go:191-209 | A rewritten built-in rule matches exactly when the rule as written would, seen from the root or some directory above the entry. |
| `IgnoreMatcher.Candidates` | internal/ignore/matcher.go:255-266 | The entry, then each of its ancestors as directories. |
| `IgnoreMatcher.Matcher.Match` | internal/ignore/matcher.go:270-324 | Includes win; else the last matching exclude decides, by whether it is negated; else hidden names, built-in rules and the project, in this order: the verdict that the laws of IgnoreLaws determine. |
| `IgnoreMatcher.Matcher.MatchProject` | internal/ignore/matcher.go:328-372 | The innermost project above the entry decides alone, by its own rules and the developer rules on paths below it. |
| `IgnoreMatcher.LastHit` | internal/ignore/matcher.go:294-302 | The exclude that decides is one that hits, and none after it does. |
| `IgnoreMatcher.Innermost` | internal/ignore/matcher.go:338-371 | The project that decides is the longest project root among the ancestors. |
| `IgnoreMatcher.Matcher.RegisterProject` | internal/ignore/matcher.go:205-228 | The rules of a project are compiled from the names it excludes and replace what was known at its root. |
| `IgnoreMatcher.Matcher.MatchFile` | internal/ignore/matcher.go:393-406 | A file that is not skipped otherwise is skipped when it exceeds a limit that is set. |
| `Scanner.Scanner.WalkRoot` | internal/agent/scanner/scanner.go:110-237 | What the walk emits, judging each entry with the table of its time, and which projects it finds, is what the final table decides; without includes and negated excludes, and starting without projects, it is every entry the final table does not skip. |
| `Scanner.Scanner.Walk` | internal/agent/scanner/scanner.go:90-108 | The roots are walked one after the other with one table, each as under the table at its end. |
| `Scanner.Scanner.Visit` | internal/agent/scanner/scanner.go:122-236 | Below a path, items and projects are those of every table that agrees with the result around the path; nothing is registered elsewhere. |
| `Scanner.Scanner.DetectProject` | internal/agent/scanner/scanner.go:248-267 | A directory whose names make it a project is entered with the compiled rules for it, any other not; registering a kept directory leaves every known project in a kept directory. |
| `Scanner.VerdictFrame` | internal/ignore/matcher.go:326-372 | A verdict depends on the projects above the entry only, so projects registered later do not change it. |
| `Scanner.SkipIsInherited` | internal/ignore/matcher.go:248-266 | What is skipped takes everything below it along when no project lies in between. |
| `Scanner.NoProjectBelowSkipped` | internal/agent/scanner/scanner.go:161-169 | No project is ever registered at or below a skipped directory. |
| `Scanner.PruningLosesNothing` | internal/agent/scanner/scanner.go:161-169 | Without rules that bring entries back, pruning yields the same as testing every entry. |
| `Scanner.RootMeans` | internal/agent/scanner/scanner.go:110-237 | An item is emitted exactly when it describes an entry of the tree that is not skipped. |
| `Scanner.ProjectVerdictMeans` | internal/ignore/matcher.go:350-366 | A project skips an entry exactly when one of its rules holds of a part of the path below its root. |
| `Walks.PrunedMeans` | internal/agent/scanner/scanner.go:122-236 | With any rules and any table, an item is emitted below a path exactly when it describes an entry that is kept and every directory from the path down to it is kept. |
| `Walks.RootPrunedMeans` | internal/agent/scanner/scanner.go:110-237 | The same for a root. |
| `Walks.NothingMissedExactly` | internal/agent/scanner/scanner.go:161-169 | A walk emits all kept entries if and only if none of them lies below a skipped directory. |
| `Walks.FoundMeans` | internal/agent/scanner/scanner.go:248-267 | A walk enters a path into the table exactly when it is that of a kept directory below kept directories whose names make it a project, with the compiled rules for those names. |
| `Walks.RootFoundMeans` | internal/agent/scanner/scanner.go:110-130 | The same for a root. |
| `Walks.AskedForButPruned` | internal/ignore/matcher.go:277-285 | With an include the premise is needed: the entry asked for is kept by Match and not reached by the walk. |
| `Walks.StaysKeptExactly` | internal/ignore/matcher.go:326-372 | An entry kept under a table is kept under a later one if and only if it is not overtaken: left to its project, and skipped by the innermost project above it, which was registered since; in particular when nothing was registered above it. |
| `Walks.EarlierRootStaysExactly` | internal/agent/scanner/scanner.go:90-108 | With several roots, what an earlier root emitted is kept by the final table exactly when no project of a later root overtakes it. |
| `Walks.SameWalkUnder` | internal/agent/scanner/scanner.go:122-236 | When nothing was registered since at a directory that was emitted or above, the walk under the later table is the same, skips included. |
| `Walks.TwoRoots` | internal/agent/scanner/scanner.go:90-108 | The condition is needed: a walk of two roots emits a directory of the first that the table it ends with skips. |
| `FlushBatch.SuccessMeansStored` | internal/agent/uploader/uploader.go:224-332 | In every interleaving flushBatch reports success exactly when every digest to be sent was acknowledged; then each was asked for once and the byte counts are those of the batch. |
| `FlushBatch.WholeBatchIsOnTheServer` | internal/agent/uploader/uploader.go:224-232 | If the server answered rightly what it lacks, success means every digest of the batch is there. |
| `FlushBatch.SentAtMostOnce` | internal/agent/uploader/uploader.go:294-325 | At any moment of any run no digest was asked for twice, and none that the server had. |
| `FlushBatch.ContextErrorsAreTheCallers` | internal/agent/uploader/uploader.go:315-323 | A context error is reported only when the context of the caller ended. |
| `FlushBatch.FailureHasACause` | internal/agent/uploader/uploader.go:263-332 | A failure is reported exactly when a chunk was given up, and then a chunk could not be encoded, a request failed, or the caller ended its context: workers cancelling one another never fail a batch by themselves. |
| `FlushBatch.NeverStuck` | internal/agent/uploader/uploader.go:263-327 | Until flushBatch returns, some step of its own is possible: no deadlock. |
| `FlushBatch.StepsRunOut` | internal/agent/uploader/uploader.go:263-327 | Every step except those of other clients brings the end nearer. |
| `FlushBatch.RunsKeepInv` | internal/agent/uploader/uploader.go:224-332 | In every state of every run each chunk set out to be sent is with exactly one worker, stored or lost, and a worker that left early means the context is done. |
| `FlushBatch.Flush` | internal/agent/uploader/uploader.go:224-332 | Under any scheduler, with any failures, the call returns and ends such a run, and fails only if something went wrong by itself; what such a run may do is bounded by the lemmas of FlushBatch and WorkerPool. |
| `UploadRestore.SendBatch` | internal/agent/uploader/uploader.go:171-185 | A batch goes through the worker pool: on success each chunk is on the server or the server said so, a failure means that something went wrong by itself, and whatever happens only blobs made from its chunks are new; what the server keeps is what a run of the pool over this batch, with this limit and throttle, leaves there. |
| `UploadRestore.Batch.Add` | internal/agent/uploader/uploader.go:351-357 | The batch grows by one chunk and its bytes. |
| `UploadRestore.UploadFile` | internal/agent/uploader/uploader.go:153-221 | On success the record lists the digests of the chunks of the file, its digest and size, and every chunk is on the server or the server said so; it fails only for a bad configuration, a context that ended, a failed read, or trouble with the server; no blob that was there is touched, even on failure. The server is asked about the chunks in their order, in batches sent with the given limit and throttle, of at most 32 chunks and less than 8 MiB before the last one, and only the last batch is sent before it is full; after a failure, about the beginning of the file. |
| `UploadRestore.RestoreFile` | internal/agent/restore/restore.go:244-276 | The loop yields the concatenation of the decoded chunks exactly when no request fails, all can be read and the digest agrees; otherwise the error is that of the first chunk that cannot be had, or of the whole file. |
| `UploadRestore.RestoreIsHonest` | internal/agent/restore/restore.go:258-276 | Whatever the server hands out, a restore that succeeds has written the bytes that were read. |
| `UploadRestore.RestoreSucceeds` | internal/agent/restore/restore.go:244-271 | A restore is possible exactly when every chunk has a readable blob. |
| `UploadRestore.UploadThenRestore` | internal/agent/uploader/uploader.go:153-221 | Upload followed by restore is the identity if and only if those chunks that the server had before are readable with the key of the restore, and the new blobs and their chunks are within 64 MiB. |
| `UploadRestore.MadeIsReadable` | internal/agent/restore/restore.go:244-262 | A blob made with the same key, or without one, from a chunk of at most 64 MiB is readable if a request delivers it. |
| `UploadRestore.SmallChunksFit` | internal/api/client.go:399-411 | A chunk of at most 64 MiB less 52 bytes makes such a blob. |
| `EndToEnd.RecordedIsBackedUp` | internal/server/store/snapshots.go:92-220 | An entry recorded in an accepted batch, and not touched by a later one, is in the tree from the step that completes the snapshot on, for as long as the snapshot is there, whatever else runs. |
| `EndToEnd.BackedUpRestores` | internal/agent/restore/restore.go:244-276 | In every state of every run, whatever agents and answers, a file of a complete snapshot has all its chunks stored, and is restored to its content if and only if their blobs are readable with the key. |
| `EndToEnd.HonestRunsStayReadable` | internal/server/httpapi/agent.go:253-326 | When the agents of a run share a key, every blob on the server stays readable with it. |
| `EndToEnd.UploadedFilesComeBack` | internal/agent/uploader/uploader.go:153-221 | Upload, batch, completion, restore: in a run whose agents share a key a file comes back as it was read, in every state in which its snapshot is there. |
| `UploadRestore.ReadableExactly` | internal/api/client.go:399-411 | The blob of any chunk, compressed or not, sealed or not, is readable if and only if the chunk is within the 64 MiB of Decode and the blob, header included, within the 64 MiB that a request delivers. |
| `Codec.Encode` | internal/codec/codec.go:109-142 | The header, appended to and patched, and the payload make the blob of the format. |
| `Codec.Decode` | internal/codec/codec.go:145-198 | The stages of reading with each error in its place. |
| `Codec.RoundTrip` | internal/codec/codec.go:109-198 | A blob reads back as its chunk if and only if the chunk is at most 64 MiB, sealed or not; an unsealed one under any key. |
| `Codec.TruncationIsNoticed` | internal/codec/codec.go:145-198 | Wherever a blob is cut short, what is left does not read back as the chunk. |
| `Codec.SealedNeedsKey` | internal/codec/codec.go:163-166 | A sealed blob without a key gives the error that says so. |
| `Codec.Unpack` | internal/codec/codec.go:29-33 | Whatever the blob, decoding never yields more than 64 MiB. |
| `Codec.UvarintRoundTrip` | internal/codec/codec.go:122 | A length below 2^64 reads back from its variable-length form, whatever follows, in at most ten bytes. |
| `Codec.BlobSize` | internal/codec/codec.go:120-141 | A blob is at most 52 bytes longer than its chunk. |
| `Codec.LawsHaveAModel` | internal/codec/codec.go:75-87 | The laws asked of compression, sealing and hashing can be met together. |
| `SemVer.RoundTrip` | internal/version/semver.go:140-150 | Parsing the text of a valid version gives the version back. |
| `SemVer.PrintedExactly` | internal/version/semver.go:21-85 | Text that parses is the text of its version, up to spaces and a leading v, if and only if its numbers fit in 63 bits. |
| `SemVer.ParsedIsPrinted` | internal/version/semver.go:21-85 | With numbers that fit the version is also valid. |
| `SemVer.Parse` | internal/version/semver.go:21-85 | The method decides as the definition does, error by error. |
| `SemVer.ParseNumeric` | internal/version/semver.go:87-99 | Digits without a leading zero, evaluated in 64-bit arithmetic that wraps around. |
| `SemVer.ValidatePreIdent` | internal/version/semver.go:101-119 | Accepts exactly the prerelease identifiers. |
| `SemVer.ValidateBuild` | internal/version/semver.go:121-138 | Accepts exactly the build metadata. |
| `SemVer.CompareMeans` | internal/version/semver.go:165-219 | Where numbers fit, Compare is the precedence of Semantic Versioning 2.0.0 item 11, and 0 exactly for versions that differ in build metadata only. |
| `SemVer.CompareFlips` | internal/version/semver.go:165-204 | Comparing the other way round gives the opposite result. |
| `SemVer.CompareCombines` | internal/version/semver.go:165-219 | Compare is transitive, even where numbers wrap. |
| `SemVer.ComparedRightExactly` | internal/version/semver.go:183-219 | A numeric identifier is compared with every fitting identifier as the standard says if and only if it is below 2^63. |
| `SemVer.WrappedNumbersCollide` | internal/version/semver.go:91-97 | Two texts that parse, of which the standard puts one below the other, compare as equal. |
| `SemVer.Highest` | internal/version/semver.go:223-235 | The result parses, and no candidate that parses is above it. |
| `SemVer.DecideRelease` | internal/version/release.go:17-35 | A release is published exactly when the version is above every candidate that parses. |
| `SemVer.CheckPullRequest` | internal/version/release.go:45-57 | A pull request is good exactly then, and fails exactly when it is not and changed the version. |
| `TokenBucket.Bucket.Reserve` | internal/throttle/bucket.go:84-115 | Tokens stay between 0 and the capacity; a request is admitted exactly when the refilled tokens cover what it needs. |
| `TokenBucket.Bucket.SetRate` | internal/throttle/bucket.go:35-51 | Changing the rate hands out no tokens, except on first use. |
| `TokenBucket.Bucket.Wait` | internal/throttle/bucket.go:61-81 | With nobody else asking, a request is admitted at the start when the tokens are there, else at the very moment they are, unless the context ends no later; a refused request takes no tokens and returns when the context ends. |
| `TokenBucket.Throughput` | internal/throttle/bucket.go:35-115 | However the limit is changed while it stays at most R, over any stretch of length t from the first request the admitted requests are of at most R + R * t bytes, where a request for more than a bucket holds counts as one bucket. |
| `TokenBucket.DelayIsExact` | internal/throttle/bucket.go:103-114 | A refused request is admitted from the returned delay on and not before, if nobody else asks. |
| `Watcher.Watcher.Run` | internal/agent/watcher/watcher.go:268-336 | Any occurrences before shutdown give a run of the states of the loop, with a record of what each came to; what was recorded or dropped is pending, an overflow signal is queued, or it was handed over or covered by a rescan later. |
| `Watcher.NothingForgotten` | internal/agent/watcher/watcher.go:268-336 | The same at every moment of every run. |
| `Watcher.NothingInvented` | internal/agent/watcher/watcher.go:268-336 | What is pending was reported by an event since it was last handed over or dropped. |
| `Watcher.DeliveredInTime` | internal/agent/watcher/watcher.go:296-333 | However fast changes keep coming, a change is handed over at the latest when the timer fires ten debounce periods after it, unless the engine was behind, or everything was dropped for a rescan; the same again after each time the engine was behind. |
| `Watcher.Watcher.OnEvent` | internal/agent/watcher/watcher.go:284-302 | A change restarts the quiet period unless that would exceed the stretch. |
| `Watcher.Watcher.OnTimer` | internal/agent/watcher/watcher.go:316-333 | A full quiet period hands over exactly the pending changes, or keeps them all for another period. |
| `Watcher.Watcher.HandleEvent` | internal/agent/watcher/watcher.go:351-409 | A change that counts is recorded with the files of a new directory; above 50000 everything is dropped and an overflow signal is queued. |
| `Watcher.Watcher.Drain` | internal/agent/watcher/watcher.go:471-483 | The batch holds exactly the pending changes. |
| `Watcher.Watcher.Restore` | internal/agent/watcher/watcher.go:486-494 | A batch put back does not replace anything newer. |
| `Watcher.PutBack` | internal/agent/watcher/watcher.go:327-332 | Putting a drained batch back restores what was pending. |
| `Watcher.QueuedMeans` | internal/agent/watcher/watcher.go:413-443 | The files of a new directory are added to what is pending, each under its path. |
| `History.StatusExactly` | internal/server/store/snapshots.go:189-262 | Any step, any snapshot: a running one becomes complete if and only if its agent reports the end without an error and all its references have rows; failed if and only if its agent reports an error or a reference has no row, or it is stale; a complete or failed one stays so. |
| `History.CompletionAnswer` | internal/server/store/snapshots.go:189-220 | Completing answers Ok exactly when the snapshot runs, no error is reported and every reference has a row; NotFound exactly when it does not run; otherwise it is marked failed. |
| `History.WasFinished` | internal/server/store/snapshots.go:189-220 | In every run: if a snapshot is complete, at some earlier step its agent reported the end without an error, while it ran and all the references it has had rows, and it was complete from then on. |
| `History.WasGivenUp` | internal/server/store/snapshots.go:189-262 | In every run: if a snapshot is failed, at some earlier step it was given up for one of the three reasons, and it was failed from then on. |
| `History.HeardOfIsSpared` | internal/server/store/snapshots.go:253-262 | A running snapshot that a batch was taken for since the cutoff survives the sweep, however long ago it was started. |
| `History.AppearsExactly` | internal/server/store/snapshots.go:22-66 | A snapshot comes into being only by a start for an existing account and device, running, unpinned and empty. |
| `History.GoneExactly` | internal/server/store/retention.go:76-114 | A snapshot goes exactly when one it builds on is deleted by its owner or by maintenance, or its device is removed by the owner. |
| `History.DependsByLinks` | internal/server/store/retention.go:76-97 | What goes with a deleted snapshot is exactly what parent links lead up to it from. |
| `History.DeltaExactly` | internal/server/store/snapshots.go:22-87 | A new snapshot is a delta on the parent asked for exactly when that is complete, of the same account and device, and parent links lead from it to a full snapshot over fewer than 64 rows. |
| `History.StartShows` | internal/server/store/snapshots.go:22-66 | A new full snapshot shows no files, a new delta the files of its parent. |
| `History.ContentExactly` | internal/server/store/snapshots.go:92-183 | References, entries, deletions and the time of the last update change only by a batch that is taken, and then by exactly what it names; owner, device, kind, parent and start time never change. |
| `History.RefsAreNamed` | internal/server/store/snapshots.go:92-183 | In every run a snapshot refers to exactly the chunks named by batches that were taken for it. |
| `History.PinExactly` | internal/server/store/retention.go:61-74 | A pin changes only by a step of the owner that names the snapshot. |
| `History.LastPinDecides` | internal/server/store/retention.go:61-74 | In every run the last step of the owner that set or lifted the pin decides. |
| `History.DeviceExactly` | internal/server/store/devices.go:40-60 | A device belongs to the account it was enrolled for until that account removes it. |
| `History.KnownExactly` | internal/server/store/chunks.go:17-34 | What an account is known to have grows by its own registering uploads and shrinks by collection, and no other way. |
| `History.KnownIsRegistered` | internal/server/store/chunks.go:42-130 | In every run an account is known to have exactly the chunks that it registered and that were not collected since. |
| `History.RowExactly` | internal/server/store/chunks.go:17-34 | A chunk row comes by a registering upload with the sizes of its blob, goes by collection, and is never replaced. |
| `History.BlobExactly` | internal/server/httpapi/agent.go:253-326 | A blob comes by an accepted upload and goes by collection or as an orphan, and is never replaced. |
| `History.InUseStays` | internal/server/store/chunks.go:135-160 | What a snapshot of any status refers to keeps its row and its bytes for as long as the snapshot is there. |
| `History.PathsAreStored` | internal/server/store/snapshots.go:780-791 | In every state of every run no path of a snapshot has a backslash or an empty, "." or ".." segment. |
| `Paths.CleanExactly` | internal/server/store/snapshots.go:780-791 | A path is accepted exactly when what is left of it, backslashes read as slashes and the slashes at its ends trimmed, has no empty, "." or ".." segment; that is what is stored. |
| `Strings.ReplacedAt` | internal/server/store/snapshots.go:780-791 | Each backslash becomes a slash, and every other character stays. |
| `Strings.TrimSlashesExactly` | internal/server/store/snapshots.go:780-791 | Only slashes are trimmed, all of them, at both ends. |
| `Pages.PageExactly` | internal/server/store/snapshots.go:523-629 | A page holds in order entries of the tree that lie after the cursor, at or under the prefix, and hit; at most the limit, or 1000 when that is not between 1 and 5000; a cursor is the last path of a full page. |
| `Pages.PageLosesNothing` | internal/server/store/snapshots.go:523-629 | Whatever is asked for is on the page or after its cursor. |
| `RetentionWindow.WindowExactly` | internal/server/maintenance/plan.go:46-70 | With no counts set, a row that is neither the newest nor pinned and that nothing kept builds on is kept if and only if the window is unlimited or it was started within it. |
| `RetentionWindow.NothingOldKept` | internal/server/maintenance/plan.go:46-105 | Whatever the counts, nothing older than the window is kept unless it is the newest, is pinned, or a kept row builds on it. |
| `RetentionWindow.KeptExactly` | internal/server/maintenance/plan.go:46-107 | A row is kept if and only if it is wanted - newest, pinned, or inside the window and, with counts, the first of its day, week or month while fewer were seen than the count - or a kept row builds directly on it. |
| `Retention.RecentSurvive` | internal/server/maintenance/maintenance.go:161-205 | With no counts set, every complete snapshot inside the window is there after a pass, whatever failed in it. |
| `Retention.OldGo` | internal/server/maintenance/maintenance.go:161-205 | After a pass in which nothing is stuck or cancelled, a complete snapshot outside the window is gone unless it is the newest of its device, is pinned, or a kept one builds on it. |
| `CutPoints.CutExactly` | internal/chunk/fastcdc.go:97-193 | From the configuration and the gear table alone: with S(k) the sum of gear values weighed by powers of two modulo 2^64, the cut is the first k after Min with S(k) * 2^(bits+2) < 2^64 up to the average, or S(k) * 2^(bits-2) < 2^64 past it; failing that the end or Max. |
| `CutPoints.FingerprintIsWeighed` | internal/chunk/fastcdc.go:181-192 | The rolling fingerprint is that sum. |
| `CutPoints.OnlyNearBytesMatter` | internal/chunk/fastcdc.go:163-193 | Whether a place is a cut does not depend on bytes more than 64 before it. |
| `CutPoints.ConfigExactly` | internal/chunk/fastcdc.go:36-64 | A configuration is taken as it is exactly when 0 < Min <= Avg <= Max and the average is at least 4 and fits the threshold shift. |
| `WorkerPool.PoolIsBounded` | internal/agent/uploader/uploader.go:253-263 | At every moment of every run the chunks in hand, and so the requests under way, are at most max(1, concurrency), and at most the chunks to send. |
| `WorkerPool.PoolIsUsed` | internal/agent/uploader/uploader.go:253-263 | Without anything going wrong some run has as many requests under way at once as the limit allows, or as there are chunks to send. |
| `WorkerPool.FirstErrorWins` | internal/agent/uploader/uploader.go:245-252 | The call reports the first error any worker ran into, and the end of the context only when none did. |
| `WorkerPool.EveryFailureHappens` | internal/agent/uploader/uploader.go:263-291 | Whenever there is a chunk to send some run ends with an encoding error, and some run with a failed request, whether or not the server got the blob. |
| `WorkerPool.FailedWorkerStops` | internal/agent/uploader/uploader.go:263-291 | A worker that could not encode or send takes no further chunk, and has ended the context of the others by the time it leaves. |
| `WorkerPool.RequestsWaitTheirTurn` | internal/agent/uploader/uploader.go:273-281 | With a throttle every request was let through by it first. |
| `IgnoreLaws.LastExcludeDecides` | internal/ignore/matcher.go:286-306 | When no include hits, the last exclude that hits decides: a negated one keeps the entry, a plain one skips it by that rule. |
| `IgnoreLaws.OneMoreExclude` | internal/ignore/matcher.go:286-306 | A negated exclude appended to the list keeps whatever it hits; a plain one skips it unless an include hits; one that does not hit changes nothing. |
| `IgnoreLaws.OneMoreInclude` | internal/ignore/matcher.go:270-285 | An include appended keeps whatever it hits, and changes nothing else. |
| `IgnoreLaws.HiddenAndGlobalsDecide` | internal/ignore/matcher.go:307-324 | When no rule of the user hits, a hidden name on the way comes next, then the first built-in rule that hits. |
| `IgnoreLaws.InnermostDecides` | internal/ignore/matcher.go:328-372 | The innermost project decides: the rule counts that speaks of the entry, or of the deepest directory above it inside the project; own rules before developer rules, the first of each list. |
| `IgnoreLaws.HitsBelow` | internal/ignore/matcher.go:255-266 | A rule that hits a directory hits everything below it. |
| `IgnoreLaws.SizeDecides` | internal/ignore/matcher.go:393-404 | A file that is kept otherwise is skipped exactly when a limit is set and the file is larger. |
| `IgnoreLaws.ProjectRulesMean` | internal/ignore/matcher.go:205-228 | For names as detectors give them: the rules of a project hold of its own directories with an excluded name, and of its own entries with an excluded ending, and of nothing else. |
| `PatternLaws.HoldsExactly` | internal/ignore/pattern.go:74-127 | A rule holds exactly when it allows files or the entry is a directory, and its segments cut the path, or, unanchored, what follows some directory, into matching pieces. |
| `PatternLaws.SegMatchMeans` | internal/ignore/pattern.go:99-127 | Segments match a path exactly when it can be cut into one piece for each: one matching name, or for ** any number of names. |
| `PatternLaws.DirRuleSparesFiles` | internal/ignore/pattern.go:74-80 | A rule for directories never holds of a file. |
| `PatternLaws.DirectoryRule` | internal/ignore/pattern.go:29-127 | The line word/ holds of the directories of that name at any depth, and of nothing else. |
| `PatternLaws.EndingRule` | internal/ignore/pattern.go:29-127 | A star and an ending hold of the entries whose name ends so, at any depth. |
| `PatternLaws.RootRule` | internal/ignore/pattern.go:29-127 | The line /word holds of the entry of that name directly below the root. |
| `GlobLaws.StarPattern` | internal/ignore/pattern.go:130-178 | A star stands for any number of characters. |
| `GlobLaws.ClassPattern` | internal/ignore/pattern.go:183-213 | A class stands for one character among those it lists, or, after ^ or !, for one of the others. |
| `GlobLaws.LiteralPattern` | internal/ignore/pattern.go:130-178 | Any other character stands for itself. |
| `Walks.EmittedExactly` | internal/agent/scanner/scanner.go:110-236 | What is recorded of each kind of entry: directories, whether they can be listed or not, links, and files within the size limit; nothing of anything else. |
| `Walks.RecordedInOrder` | internal/agent/scanner/scanner.go:110-236 | A walk records no entry twice, and every directory before what lies below it. |
| `Codec.UnpackExactly` | internal/codec/codec.go:145-198 | A blob reads as x if and only if it has version 1, flags, the length of x within 64 MiB in seven-bit groups, and then x, compressed and sealed as the flags say, with everything before the ciphertext as associated data. |
| `Codec.FormatExactly` | internal/codec/codec.go:109-142 | A chunk is stored byte for byte as version 1, flag 1 if compression makes it shorter and flag 2 with a key, its length, and the shorter form, sealed after the nonce of its digest. |
| `Codec.WrongExactly` | internal/codec/codec.go:145-198 | Which blobs give the errors for another version and for a missing key, and what the other errors imply. |
| `Codec.UvarintExactly` | internal/codec/codec.go:155 | What is read is the number that stands there: top bit set in all bytes but the last, at most 64 bits. |
| `PutHandler.AcceptableExactly` | internal/server/httpapi/agent.go:285-308 | A blob is acceptable exactly when it is marked as sealed or, where sealing is not required, is the blob of a chunk with its digest. |
| `Watcher.LimitsExactly` | internal/agent/watcher/watcher.go:351-409 | An event drops everything for a rescan exactly when more than 50000 paths would be pending, and a batch is kept back exactly when 8 batches wait for the engine. |
| `Watcher.ChangeMoves` | internal/agent/watcher/watcher.go:351-409 | What any occurrence does to what is pending for one path. |
| `Watcher.LastEventDecides` | internal/agent/watcher/watcher.go:351-409 | A pending change says of its path - removed, a directory - what the last event about it said. |
| `Watcher.HandedAfterQuiet` | internal/agent/watcher/watcher.go:284-333 | A change is handed over no sooner than a full period after it, unless it came nine periods or more after the one that started the timer. |
| `TokenBucket.NothingLost` | internal/throttle/bucket.go:84-115 | Below a full bucket, what is left is what was there and what flowed in less what was taken, and a request is admitted exactly when that covers it. |
| `TokenBucket.ASecondFillsTheBucket` | internal/throttle/bucket.go:84-115 | After a second without requests any request is admitted. |
| `SemVer.TagParses` | internal/version/semver.go:21-60 | The tag of a version, with v or V, parses to the version. |
| `SemVer.TagsDecide` | internal/version/release.go:17-42 | A release is skipped exactly when some tag names a version that is not below it. |

## Left out

- Interleavings inside a store call, crashes other than those in `Interruption`, and SQLite itself.
- SetSnapshotPinned, user policies and enrolment are steps of the model without a method of their own: each is a single statement.
- Statistics, timestamps and error texts of snapshot rows.
- treeChildren, the one-row-per-child listing (internal/server/store/snapshots.go:449-497): rows such as "foo", "foo-bar", "foo/x" break the contiguity it relies on.
- The name filter of a tree query is any predicate on the path.
- FileVersions, listings, quotas, alerts, usage statistics and everything that only formats results.
- PutHandler.HandlePutChunk: whether the quota leaves room is an input, as is whether storage and database take what they are given.
- RetentionPlan.PlanRetention: says nothing of chains of 1000 links and more, which `Retention.ChainsAreShort` shows do not occur; durations are unbounded integers.
- `Chunker.Reader`: read errors carry no detail.
- FlushBatch.Flush: starts after the server has answered; `UploadRestore.SendBatch` asks, and ends when there is no answer. Other clients storing chunks are steps of the machine, not of this method.
- UploadRestore.UploadFile: sends batches one after the other, as the program does, with progress reports and statistics left out.
- UploadRestore.RestoreFile: covers fetching, decoding and verifying; conflict handling, temporary files, renaming, times and modes are file system calls.
- Protected system locations, unreadable file information, cancellation and the sample lists of a walk.
- Scanner.Scanner.WalkRoot: the last statement is for the first root only; `Walks.TwoRoots` shows why.
- The marker tables that make a directory a project are any function of its names.
- Case folding and backslashes in ignore rules and paths.
- Watch registration, kernel handles and the shutdown of the watcher.
- Watcher.Watcher.HandleEvent: what the rules say of an event is part of the event.
- SemVer.Parse: error texts; SemVer.DecideRelease: messages and the product string.
- TokenBucket.Throughput: says nothing of stretches in which the limit is lifted.
- TokenBucket.Bucket.Wait: the minimum delay of a millisecond, and rounding to nanoseconds.
- Key derivation, recovery codes, HTTP, S3, the user interface and the command line.
