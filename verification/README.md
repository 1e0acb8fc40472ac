# free-s3, modelled and proved

free-s3 is an S3 gateway: it cuts objects into chunks, replicates every chunk to several
unreliable hosts, keeps the chunk map in a relational store, and reassembles range reads with a
parallel-prefetch reader. This project models the parts of it whose correctness is not obvious
from reading one function, and proves what they promise over every input, every interleaving or
every run. `dafny verify dfyconfig.toml` checks everything.

## How it is organised

| file | what it models |
|---|---|
| `Prefetch`, `PrefetchSafety`, `PrefetchProgress`, `PrefetchClose`, `Alignment` | the prefetch reader as a step system: workers, slots, drainer, delivery channel, Read, Prime, Close |
| `ChunkSource` | window reads over stored chunks: binary search, stitching loop, hedged reads underneath |
| `Numerals`, `Framing`, `ChunkHeaders`, `RequestBody` | the aws-chunked decoder as an object with a position over a wire that may end early |
| `Uploading`, `Splitting` | the loop that fills chunk buffers and replicates them, and the cut into chunks |
| `Pool`, `Replication`, `Repair`, `Storage` | provider order and health, replicated upload with a background phase, hedged read, repair of one chunk |
| `Metadata`, `MetadataRuns`, `RepairRuns`, `Reaping` | the store's tables and transactions, runs of them, the sweep's write-back between them, and overwrites and deletions that reap what they replace |
| `ByteOrder`, `Listing` | listing with prefix scan, delimiter roll-up and pagination |
| `PartTags`, `Multipart` | the part tables and tags, and assembling a multipart upload |
| `Conversion`, `Sweep` | the keep-alive sweep: rotating window and write-back of repairs |
| `CanonicalQuery` | percent-encoding and the canonical query string of request signatures |
| `Ranges`, `EndToEnd`, `PutThenGet` | the Range header, GET as a whole, and PUT then GET |

A schedule is a list of steps; a step that is not enabled when its turn comes is skipped. A
statement about `Exec(c, steps)` for all `steps` therefore ranges over all interleavings. Where the
code picks among ready events (a select, a timer, map iteration), the model picks
nondeterministically.

## Assumptions

These are stated as preconditions, because the code does not establish them.

- A host answers a window read with the whole window or an error. `internal/reader/chunk_source.go:120-125`
  accepts a short read silently; `ChunkSource.Chunk` says what holds then (a prefix) and what holds
  under the assumption (the window).
- A stream that a repair reads to its end without an error has delivered the whole chunk. The code does not
  compare it with the chunk's size; `Repair.RepairChunk` says what holds without the assumption.
- Every successful upload returns a fresh locator, and the bytes at a locator do not change.
- An ETag determines the content, and plain and multipart ETags are disjoint.
- The upload chunk size is fixed within a process.
- Each store transaction is one atomic step, and so is the completion of one upload id. The repair of a
  chunk and its write-back are one step in `MetadataRuns` and `Reaping`, and two in `RepairRuns`.
- A connection that has ended keeps reporting the same end.

## What turned out not to hold

- `upload` takes `io.ErrUnexpectedEOF` for the end of the body, and the aws-chunked reader passes that
  error on. A body that a breaking connection cuts in a header or in chunk data is stored as complete
  (`Uploading.UploadCut`, `Uploading.UploadPlain`). It is refused exactly when the connection ends
  otherwise, or the cut falls into a chunk's line end, is not reported along with the last data, and the
  payload so far does not fill whole upload chunks. A declared decoded length closes the gap
  (`Uploading.ReceiveCut`). A plain end of file inside the framing is always noticed.
- The upload loop drops an error that arrives together with a full buffer. A chunk followed by bytes
  other than CR LF is accepted exactly when the payload up to there is a multiple of the upload chunk
  size (`Uploading.UploadWrongLineEnd`).
- `Read` never looks at the closed flag. After `Close` has thrown a buffer away, a `Read` can return
  later bytes, for every window and every channel capacity (`PrefetchClose.ReadAfterCloseSkips`). A caller
  that receives nothing after `Close` gets a prefix in every run (`PrefetchClose.StopsAtClose`).
- A cancelled reader can end in a clean end of file with bytes missing
  (`PrefetchSafety.CancelledRunLooksComplete`); an uncancelled one cannot.
- A repair commits to the first live replica that opens. If that stream breaks the repair fails, and the
  sweep counts the chunk as lost, although another live replica may be whole (`Repair.BrokenLead`,
  `Repair.RepairMissed`).
- Writing repaired replicas back has no ETag guard. A PUT between the sweep's read and its write-back
  leaves rows with another version's bytes (`RepairRuns.UnguardedBreaks`, `RepairRuns.UnguardedRace`); with
  a guard on what was seen no interleaving does (`RepairRuns.GuardedStaysGood`), and for plain objects
  comparing the ETag is that guard (`RepairRuns.EtagDecides`).
- A DELETE deletes the blobs before the rows, so in between rows name deleted blobs
  (`Reaping.DeletionDangles`), and only then (`Reaping.NeverReferenced`).
- With the empty key stored, a page limit of one makes the cursor stand still, because the empty
  marker means "from the start" (`Listing.EmptyKeyStalls`). The router never stores that key.
- The Range parser departs from section 2.1 of RFC 7233 for numbers of 2^63 and more and for the
  suffix length 0, which it ignores (`Ranges.ParserConforms`), and it accepts plus signs, white space and a
  minus sign before a last position of zero (`bytes=0--0`), which the grammar does not have
  (`Ranges.LenientHeaders`), and nothing else (`Ranges.ParserMeans`).
- The comment that every tier of candidates is rotated (`internal/storage/freehost/pool.go:50-55`) holds for
  the healthy tiers only (`Pool.OrderedBlocks`).
- The comment that memory is bounded by the concurrency (`internal/reader/reader.go:50-53`) does
  not follow from the code, as each window has its own slot; nothing is claimed about memory.

## Model

| member | source | states |
|---|---|---|
| `PrefetchSafety.DeliversPrefix` | internal/reader/reader.go:145-281 | in every interleaving of workers, drainer, reader, cancellation and close, the bytes read so far are a prefix of object[start..end) as long as Close has discarded no buffer, which it cannot have before it was called |
| `PrefetchSafety.UncancelledEnding` | internal/reader/reader.go:181-281 | an uncancelled run ends in one way whatever the schedule: end of file after exactly the range, or the error of the least failing window after exactly the windows before it |
| `PrefetchSafety.ErrorSticks` | internal/reader/reader.go:256-281 | once Read has reported an error no further step changes the error or the bytes |
| `PrefetchSafety.InitialPrime` | internal/reader/reader.go:236-254 | a first Prime fails iff window 0 failed, with that error; an empty range is end of file |
| `PrefetchSafety.ExecInv` | internal/reader/reader.go:127-227 | every reachable state: each index is claimed once and held by one worker or its slot, a held index has a free slot, the channel holds consecutive trimmed windows, only its last buffer may be an error |
| `PrefetchSafety.CancelledRunLooksComplete` | internal/reader/reader.go:181-227 | for every non-empty range some cancelled run reports end of file having delivered nothing |
| `PrefetchClose.ReadAfterCloseSkips` | internal/reader/reader.go:256-302 | for every channel capacity and every window i but the last, some run reads the windows before i and then, after Close discarded window i, window i + 1; the bytes are a prefix of the range iff window i + 1 starts what was due |
| `PrefetchClose.StopsAtClose` | internal/reader/reader.go:256-302 | a caller that receives nothing after Close gets a prefix of the range in every interleaving, whatever Close discards |
| `PrefetchSafety.NewConfigIsValid` | internal/reader/reader.go:79-143 | whatever the arguments, construction yields a configuration every other result applies to; a sensible start, end, window, channel capacity and concurrency survive, and what each other value is replaced by |
| `PrefetchSafety.CopyFills` | internal/reader/reader.go:256-281 | a read takes what is left of the current buffer up to its own size, in order, and keeps the rest |
| `PrefetchProgress.HolderMoves` | internal/reader/reader.go:145-177 | a worker that holds a window always has an enabled step: a send never blocks |
| `PrefetchProgress.ExecCovers` | internal/reader/reader.go:127-177 | until cancellation, every claimed window that was not drained is in its slot or with a worker, and workers leave only when no index is left |
| `PrefetchProgress.NeverStuck` | internal/reader/reader.go:127-281 | every uncancelled state in which Read has reported no end has an enabled worker, drainer or consumer step |
| `PrefetchProgress.StepFalls` | internal/reader/reader.go:127-302 | every enabled step decreases a lexicographic measure, so no schedule runs for ever |
| `PrefetchProgress.RunEnds` | internal/reader/reader.go:79-281 | total correctness: under every scheduler that moves when something can move, the run ends, with the whole range and end of file or with the least failing window's error after the windows before it, and all workers and the drainer have exited |
| `PrefetchProgress.CloseNeverStuck` | internal/reader/reader.go:285-302 | after Close, from any state, some goroutine can move until all have exited and the channel is empty |
| `PrefetchProgress.CloseReleases` | internal/reader/reader.go:285-302 | Close from any reachable state: under every scheduler that does not starve the goroutines, whatever else it runs, all workers, the drainer and the drain of Close come to an end |
| `Alignment.WindowsCover` | internal/reader/reader.go:115-125 | the aligned windows start at or before start and reach end |
| `Alignment.TrimFullWindow` | internal/reader/reader.go:200-226 | trimming a full window leaves exactly its share of [start, end) |
| `ChunkSource.Locate` | internal/reader/chunk_source.go:133-145 | the binary search finds the one chunk that contains the offset, and none iff the offset lies past the object |
| `ChunkSource.ReadPart` | internal/reader/chunk_source.go:87-118 | one read ends at the chunk or the window end and yields the object's bytes there; it succeeds only if some enabled replica yields the part, and fails only if none does or the window's deadline expired |
| `ChunkSource.DownloadRangeBytes` | internal/storage/freehost/backend.go:330-433 | the part of a chunk comes from some replica through the hedged race; without a deadline it is missing iff no enabled replica yields it, with one also when the deadline expires first |
| `ChunkSource.Chunk` | internal/reader/chunk_source.go:76-128 | a window read returns only a prefix of the window; with complete reads exactly the window cut at the object's end, and then every needed part can be read; it fails only if a needed part cannot be read or the deadline expired |
| `ChunkSource.ChunkSize` | internal/reader/chunk_source.go:60-70 | the configured window, or 4 MiB, kept if it is at most 64 KiB or twice the range, and otherwise halved until it is, never below 32 KiB or the range |
| `Numerals.ParseRendered` | internal/s3api/chunked.go:80-93 | parsing undoes rendering for every non-negative 64-bit value and base 2 to 16 |
| `Framing.DecodeFramed` | internal/s3api/chunked.go:47-124 | for any non-empty chunks, header extensions, trailer and end of the wire, the meaning of the framed body is the concatenated payload with a clean end |
| `Framing.FramedMeans` | internal/s3api/chunked.go:30-36 | the framed form: header, CR LF, data, CR LF for each chunk, one after the other |
| `Framing.DecodeCut` | internal/s3api/chunked.go:47-124 | a framed body cut anywhere before the newline of its zero-size header means exactly the payload before the cut, and its ending is fixed by the wire's end and the place of the cut; it is never clean |
| `Framing.CutMeans` | internal/s3api/chunked.go:47-124 | the payload before a cut is all data of the frames before it and what lies before it of its own frame, and whether it falls into header, data or line end |
| `Framing.WrongLineEnd` | internal/s3api/chunked.go:47-78 | bytes other than CR LF behind a chunk, with frames before and after: decoding goes on iff the caller does not see the error there, otherwise it ends garbled behind that chunk |
| `Framing.BadHeader` | internal/s3api/chunked.go:80-110 | where a line announces no size, or none ends within 4096 bytes, the body means the payload before it and a malformed end |
| `Framing.HexHeader` | internal/s3api/chunked.go:80-110 | a hexadecimal size with any extension on one line within the buffer is a valid header of a chunk of that size for the gateway's own parser |
| `ChunkHeaders.HeaderMeans` | internal/s3api/chunked.go:80-110 | a line is read as a size iff it is hexadecimal digits of that value below 2^63, with a plus sign, white space or an extension or none of them, or a negated zero |
| `ChunkHeaders.HexNotation` | internal/s3api/chunked.go:80-93 | hexadecimal notation: a digit of either case has its own value, and what stands before it counts sixteenfold |
| `RequestBody.Body.Read` | internal/s3api/chunked.go:47-78 | each read returns a front part of the body's meaning and leaves the rest as the new meaning; an error tells how the body ends (clean, malformed, early end, other failure), except where the caller's buffer is full, and then the body goes on |
| `RequestBody.ReadToEnd` | internal/s3api/chunked.go:47-124 | for any sequence of positive read sizes exactly the payload is delivered, then the error that belongs to the body's ending, and end of file for ever at a clean end |
| `RequestBody.ReadFull` | internal/storage/freehost/backend.go:128-129 | fills the buffer from the meaning, drops an error that comes with the last byte, and reports each short end as it is, an early end of the wire and a short buffer alike as unexpected end |
| `Uploading.Upload` | internal/storage/freehost/backend.go:122-148 | the stored chunks are the payload cut every cs bytes, numbered from 0 at running offsets, each with the replicas of the shortest candidate prefix with enough takers; done iff the body ends cleanly or with an early end of the wire; a refused chunk stops it right there |
| `Uploading.UploadFramed` | internal/storage/freehost/backend.go:122-148 | uploading a well-framed body stores exactly its payload, however the wire ends behind it |
| `Uploading.UploadSent` | internal/storage/freehost/backend.go:122-148 | the same for bodies as clients write them, with hexadecimal headers and the gateway's own parser |
| `Uploading.UploadCut` | internal/storage/freehost/backend.go:128-146 | a cut framed body is stored up to the cut; it is taken for complete iff the wire reports an early end and the cut is not noticed in a chunk's line end, so every cut in chunk data with an early end loses bytes silently; a plain end is always refused |
| `Uploading.UploadPlain` | internal/storage/freehost/backend.go:128-146 | a plain body is stored as far as it came and accepted iff the wire does not fail with an error other than an early end |
| `Uploading.ReceiveCut` | internal/s3api/handler.go:344-362 | with the payload length declared, a cut body is accepted only if no payload is missing; without, iff the cut goes unnoticed |
| `Uploading.UploadWrongLineEnd` | internal/storage/freehost/backend.go:128-146 | with frames before and after, a chunk followed by something other than CR LF is accepted iff the payload up to there is a multiple of the chunk size, and what is stored in each case |
| `Uploading.UploadBadHeader` | internal/storage/freehost/backend.go:128-146 | a body whose framing goes wrong at a header is refused, and what was stored is the payload before it |
| `Uploading.UploadBadSize` | internal/storage/freehost/backend.go:128-146 | the same with the gateway's own parser: any first line that announces no size |
| `Splitting.SplitConcat` | internal/storage/freehost/backend.go:122-148 | putting the chunks together gives the body back |
| `Splitting.SplitSizes` | internal/storage/freehost/backend.go:122-148 | every chunk has cs bytes but the last, which has 1 to cs |
| `Splitting.LayoutSlices` | internal/storage/freehost/backend.go:128-146 | chunk i holds body[offset .. offset + size) |
| `Replication.UploadChunk` | internal/storage/freehost/backend.go:161-266 | for every completion order: exactly the shortest candidate prefix with R successes (or all candidates) is tried, returned and late replicas together are its successes, each once, an uncancelled run fails iff all fail, and with syncN = R nothing comes late; for 1 <= syncReplicas <= R the caller waits for min(syncReplicas, takers) replicas, otherwise for min(R, takers), and nothing lands later when it waits for all R |
| `Replication.TakesCounts` | internal/storage/freehost/backend.go:161-222 | the number of takers among the first k candidates is the number of them that accept |
| `Replication.ShortestPrefixUnique` | internal/storage/freehost/backend.go:161-266 | that prefix is unique: the outcome is the same for every schedule |
| `Replication.Background` | internal/storage/freehost/backend.go:238-263 | the background phase drains what is in flight, tops up on failure and hands over each success once |
| `Replication.HedgedRead` | internal/storage/freehost/backend.go:330-433 | under every schedule of timers and completions the read terminates, starts a prefix of the enabled replicas in order, returns only a delivered buffer, and uncancelled fails iff every enabled replica's read failed |
| `Replication.EnabledInOrder` | internal/storage/freehost/backend.go:330-433 | the replicas of the race are exactly the enabled ones, in list order |
| `Pool.Rotate` | internal/storage/freehost/pool.go:104-117 | the in-place rotation is the left rotation by n, for any n including negative and larger than the length |
| `Pool.RotatedAt` | internal/storage/freehost/pool.go:104-115 | place i of the rotated list is place i + n of the list, counted round, for any n |
| `Pool.Pool.Candidates` | internal/storage/freehost/pool.go:56-88 | the candidates are the tiers in order, the two healthy ones rotated by the advanced counter |
| `Pool.OrderedBlocks` | internal/storage/freehost/pool.go:56-88 | place i of a healthy tier is place i + counter of its providers in configuration order, counted round; the unhealthy tiers are in configuration order |
| `Pool.TierInOrder` | internal/storage/freehost/pool.go:56-88 | a tier lists its providers in configuration order |
| `Pool.OrderedIsPermutation` | internal/storage/freehost/pool.go:56-88 | the candidates are a permutation of exactly the providers that fit the chunk |
| `Pool.OrderedFits` | internal/storage/freehost/pool.go:56-88 | a provider is listed as often as it is configured if its limit allows the chunk, and otherwise not at all |
| `Pool.OrderedByTier` | internal/storage/freehost/pool.go:56-88 | tiers come in order under any rotation and any failure history |
| `Pool.HealthyFirst` | internal/storage/freehost/pool.go:56-88 | providers with fewer than three failures come before the others, and in both groups durable ones before temporary ones |
| `Pool.DurableKept` | internal/storage/freehost/pool.go:56-88 | if some healthy durable provider that fits would take the chunk, the final replica set of the upload has a durable one |
| `Pool.Pool.MarkFailed` | internal/storage/freehost/pool.go:96-100 | a failure joins the events, and the counter of every provider stays the number of its failures since its last success |
| `Pool.Pool.MarkHealthy` | internal/storage/freehost/pool.go:90-94 | a success joins the events, and the counter of every provider stays the number of its failures since its last success |
| `Pool.Pool.IsHealthy` | internal/storage/freehost/pool.go:67-69 | over any sequence of outcomes a provider is healthy iff fewer than three failures followed its last success, which it names |
| `Repair.OpenReplica` | internal/storage/freehost/backend.go:287-307 | commits to the first replica in list order that opens and yields what its stream does, whole or broken; nothing iff none opens |
| `Repair.ReplicateExtra` | internal/storage/freehost/backend.go:544-567 | uploads to unused candidates only, at most one per provider, as many as needed or as take it; no unused candidate that would take the bytes is passed over for a later one, and none is left if fewer were found |
| `Repair.RepairChunk` | internal/storage/freehost/backend.go:502-539 | fails iff no replica is live, or fewer than R are and the first that opens breaks (or none opens); otherwise keeps every live replica, repeats no provider, ends with max(live, min(R, live + takers)) replicas, reports changed iff the list differs, is a no-op at R with no deaths, and every replica holds the chunk's bytes iff nothing was added or the bytes read are those; what is added are uploads of the bytes read to candidates that held no live replica, and with fewer than R in the end no such candidate that takes them is left |
| `Repair.LiveInOrder` | internal/storage/freehost/backend.go:502-517 | the live replicas keep their order |
| `Repair.RepairMissed` | internal/storage/freehost/backend.go:519-527 | with some live replica whole, the repair is missed iff fewer than R are live and the first that opens breaks |
| `Repair.BrokenLead` | internal/storage/freehost/backend.go:519-527 | such a chunk: two live replicas, the first breaks, the second is whole, three are wanted |
| `Repair.WholeReads` | internal/storage/freehost/backend.go:519-527 | if streams that end without an error are whole, the bytes read are the chunk's |
| `Metadata.ReplaceChunks` | internal/metadata/store.go:941-965 | afterwards the rows of the owner are the new chunk map, numbered densely, with no other row of it left, and no other owner's row changed |
| `Metadata.Store.PutObject` | internal/metadata/store.go:274-297 | the key holds that version, every other object is as it was, and the tables represent that |
| `Metadata.Store.DeleteObject` | internal/metadata/store.go:412-430 | the key is gone, every other object is as it was, and no chunk or replica row of the object is left |
| `Metadata.Store.UpdateChunkReplicas` | internal/metadata/store.go:468-488 | replaces the replicas of one chunk, numbered densely from 0; for a chunk that does not exist the view is unchanged and the rows are never read; nothing else changes |
| `Metadata.Store.AppendChunkReplica` | internal/metadata/store.go:502-544 | appends the replica behind the others of its chunk, at the next dense index, iff the object is there under that ETag with that chunk and without that provider; nothing else changes |
| `Metadata.Store.MarkReplicaDead` | internal/metadata/store.go:434-438 | clears the alive flag of that replica if it exists, and changes nothing else |
| `Metadata.Store.GetObjectChunks` | internal/metadata/store.go:355-407 | reads back the chunk map as it was stored: chunks in part order, replicas in index order |
| `MetadataRuns.AppendKeeps` | internal/metadata/store.go:502-544 | a late replica that passes the ETag guard holds the right slice of the current version, even if another PUT of the same body came between |
| `MetadataRuns.UploadedIsGood` | internal/s3api/handler.go:264-294 | the version a plain PUT commits tiles its body and every replica locates its slice |
| `MetadataRuns.RunsStayGood` | internal/metadata/store.go:274-544 | over every run of put, finalize, late append, mark-dead, atomic repair and delete, every object's chunks tile [0, size), every replica row locates exactly that slice of the current version, and providers per chunk are distinct |
| `MetadataRuns.RunGoesOn` | internal/metadata/store.go:274-544 | deletions and marks can come at any point of a run, and every transaction that can come takes effect on its own key only |
| `MetadataRuns.RepairWriteBack` | internal/metadata/store.go:468-488 | writing repaired replicas back keeps this iff the repaired bytes are still those of the chunk |
| `RepairRuns.GuardedStaysGood` | internal/metadata/store.go:468-488 | with read and write-back as two steps and a guard that what was seen is still current, every interleaving with all other transactions keeps every row on its object's own bytes |
| `RepairRuns.GuardedWrites` | internal/metadata/store.go:468-488 | the guarded write-back installs the repaired replicas of a chunk that is still current and otherwise does nothing |
| `RepairRuns.EtagDecides` | internal/metadata/store.go:468-488 | for a plain object that guard is the comparison of the ETag alone |
| `RepairRuns.UnguardedRace` | internal/keepalive/keepalive.go:93-113 | as the code is, put, sweep reads, put, write-back ends with wrong rows iff chunk i of the two versions differs |
| `RepairRuns.UnguardedBreaks` | internal/keepalive/keepalive.go:93-113 | such a run, with two one-byte bodies |
| `Reaping.ExecInv` | internal/s3api/handler.go:249-301 | in every interleaving of PUTs, DELETEs, late appends, repairs and marks each locator enters the rows at most once, what a PUT is about to reap has left the rows at its own commit, and a reaped locator in the rows has a deletion between its two steps |
| `Reaping.NeverReferenced` | internal/s3api/handler.go:685-706 | a reaped locator is in a committed row of the key, then or at any later point, only while some deletion stands between deleting its blobs and removing the rows |
| `Reaping.OverwritesNeverDangle` | internal/s3api/handler.go:249-301 | without deletions no reaped locator is ever in a committed row of the key |
| `Reaping.OverwriteReaps` | internal/s3api/handler.go:249-301 | after any run, an undisturbed PUT reaps exactly the locators the rows named and puts its own version |
| `Reaping.PutStepsMean` | internal/s3api/handler.go:252-301 | a failed PUT reaps exactly its own uploads; a finished one appends a straggler iff the object is still there under its ETag with that chunk and without that provider |
| `Reaping.OtherStepsMean` | internal/s3api/handler.go:685-706 | a deletion removes the blobs it read and then the rows of the key, nothing else; a repair replaces the replicas of its chunk |
| `Reaping.RowsMean` | internal/s3api/handler.go:264-301 | a locator is in the rows iff some replica of some chunk of the committed version has it |
| `Reaping.DeletionDangles` | internal/s3api/handler.go:692-706 | from every state a deletion passes through one in which every committed row names a deleted blob |
| `ByteOrder.PrefixUpperBound` | internal/metadata/store.go:651-660 | the half-open scan from the prefix to its bound selects exactly the keys with the prefix, for all byte strings |
| `ByteOrder.ScanIsPrefix` | internal/metadata/store.go:585-592 | the same for any bound of that shape, including trailing and all-0xFF prefixes |
| `ByteOrder.Contiguous` | internal/metadata/store.go:613-631 | keys that share a prefix are contiguous in byte order |
| `ByteOrder.LessMeans` | internal/metadata/store.go:578-593 | byte order: the first difference decides, and a proper prefix comes first |
| `Listing.Scan` | internal/metadata/store.go:578-593 | the query yields the keys with the prefix after the marker |
| `Listing.ResultMeans` | internal/metadata/store.go:613-631 | a key rolls up iff the delimiter is not empty and occurs behind the prefix, right behind it included; then into its start up to the end of the first occurrence, and otherwise it is listed itself |
| `Listing.ResultsContiguous` | internal/metadata/store.go:613-631 | a result two keys share is the result of every key between them, so the streaming roll-up needs no look-back across pages |
| `Listing.CommonsOrdered` | internal/metadata/store.go:613-631 | distinct common prefixes are ordered as the keys they come from |
| `Listing.ListObjectsPage` | internal/metadata/store.go:572-645 | both lists ascending, at most the limit, exactly the results of the keys up to the cursor and none of a later key; truncated only when full and another result remains; the limit is 1000 unless a smaller positive one is asked for |
| `Listing.CursorAdvances` | internal/metadata/store.go:610-645 | the cursor lies strictly beyond the marker and strictly fewer rows remain |
| `Listing.EmptyKeyStalls` | internal/metadata/store.go:581-584 | a truncated page has the empty cursor iff the empty key is selected and the limit is one |
| `Listing.ListAll` | internal/metadata/store.go:572-645 | following the cursor from any marker terminates; then a key is listed iff it is selected and does not roll up, a common prefix iff some selected key rolls up into it, each once and in byte order |
| `Multipart.FaultlessIffAcceptable` | internal/s3api/multipart.go:174-193 | the checks accept exactly the requests with strictly ascending positive part numbers, present parts with matching etags, and no undersized part before the last |
| `Multipart.FaultMeans` | internal/s3api/multipart.go:174-193 | which fault a line has: not above the line before it, no stored part with that tag up to quotes and letter case, below 5 MiB before the last, or a stored tag that is not an even number of hexadecimal digits, in this order |
| `PartTags.TrimMeans` | internal/s3api/multipart.go:180 | trimming takes off all quotes in front and behind and nothing else |
| `PartTags.FoldMeans` | internal/s3api/multipart.go:180 | tags match iff they are equal up to the case of letters |
| `PartTags.DecodeMeans` | internal/s3api/multipart.go:189-193 | a tag decodes iff it is an even number of hexadecimal digits, to the bytes they spell, the higher digit first |
| `Multipart.Uploads.Assemble` | internal/s3api/multipart.go:166-211 | reports the first fault, or the listed parts' chunks, read from the part tables, end to end at running offsets with their total and tag bytes |
| `Multipart.SizesAgree` | internal/s3api/multipart.go:201-213 | the assembled length is the sum of the listed stored part sizes |
| `Multipart.Uploads.PutMultipartPart` | internal/metadata/store.go:798-828 | the part tables hold the latest upload of the part number, no row of an earlier one, and every other part as before; part sizes stay right if the given one is |
| `Multipart.Uploads.GetMultipartPartChunks` | internal/metadata/store.go:753-793 | reads back the chunks the latest upload of the part stored, all alive |
| `Multipart.RevivedMeans` | internal/metadata/store.go:753-793 | a part reads back with its chunks and replicas in order, providers, locators and tokens as uploaded |
| `Multipart.Uploads.FinalizeMultipartUpload` | internal/metadata/store.go:897-923 | writes the object, leaves no row of any table for that upload and every other upload as it was; every other object and every part of another upload stays |
| `Multipart.Uploads.CompleteMultipartUpload` | internal/s3api/multipart.go:144-232 | accepted iff acceptable, with the first fault otherwise; then the object is the listed parts end to end and no bookkeeping is left; a rejected completion changes nothing |
| `Multipart.CompletedIsGood` | internal/s3api/multipart.go:201-220 | the completed object's chunks tile it, its content is the concatenation of the listed parts, and it is a version a store run may finalize |
| `Multipart.PartsEndToEnd` | internal/s3api/multipart.go:166-213 | in the completed object the listed parts lie end to end in the order of the request, each where the earlier ones end |
| `Multipart.TagsEndToEnd` | internal/s3api/multipart.go:189-212 | its tag is computed over the bytes that the stored tags of the listed parts spell, in the order of the request |
| `Multipart.Complete` | internal/s3api/multipart.go:144-232 | on a store whose rows are right a completion keeps them right, and an accepted object's content is the concatenation of the listed parts; every other object stays |
| `Conversion.StorageReplicas` | internal/s3api/handler.go:382-395 | the replicas that rows call alive first, then the others, both in row order, none lost |
| `Conversion.FromStorageReplicas` | internal/keepalive/keepalive.go:141-147 | the same replicas in order, all alive |
| `Sweep.Sweeper.Pick` | internal/keepalive/keepalive.go:78-86 | with a sample of 1 to n - 1, the sample keys from the cursor on, counted round, and the cursor behind them; otherwise all keys and the cursor as it was |
| `Sweep.VisitsBalanced` | internal/keepalive/keepalive.go:69-86 | after any number of ticks from any cursor, the visit counts of any two keys differ by at most one |
| `Sweep.EveryKeyVisited` | internal/keepalive/keepalive.go:69-86 | any ceil(n / sample) consecutive ticks visit every key |
| `Sweep.MendRows` | internal/keepalive/keepalive.go:99-113 | lost iff no replica is live, or too few are and the first that opens does not deliver; left alone iff all are live and there are enough of them or no further provider takes the chunk; otherwise the rows written hold the chunk's bytes on distinct providers, all alive, every live replica kept, the others fresh uploads, R of them unless more were live or no further candidate takes it |
| `Sweep.MendChunk` | internal/keepalive/keepalive.go:99-115 | one chunk: its rows become those of `MendRows` unless it is lost, left alone or cannot be written, when they stay; every row still locates the object's own bytes and no other chunk is touched |
| `Sweep.VisitedOnce` | internal/keepalive/keepalive.go:78-86 | a tick visits no key twice, only keys of the list, and as many as the sample asks for or all |
| `Sweep.SweepObject` | internal/keepalive/keepalive.go:93-115 | if its rows load, every chunk of the object ends as `MendChunk` says and the lost ones are counted, otherwise it stays; extents and ETag are as before, and no other object changed |
| `Sweep.RunOnce` | internal/keepalive/keepalive.go:69-120 | one uncancelled tick, with store errors that skip an object or a write-back at any point: every object of the window ends as `SweepObject` says, so each chunk that can be saved and written and has something to do is well mended; the lost chunks are counted; nothing outside the window changes, the store's invariant holds, and the cursor moves |
| `CanonicalQuery.AwsURIEncode` | internal/s3api/handler.go:1000-1018 | the encoding loop computes the byte-wise encoding that `EncodeMeans`, `DecodeEncode` and `EncodeClean` are about |
| `CanonicalQuery.EncodeMeans` | internal/s3api/handler.go:1000-1018 | letters, digits, hyphen, period, underscore and tilde stand for themselves, a slash if it is not to be encoded, and every other byte is a percent sign and its two upper-case hexadecimal digits, in order |
| `CanonicalQuery.DecodeEncode` | internal/s3api/handler.go:1000-1018 | percent-decoding (section 2.1 of RFC 3986) undoes the encoding of every byte string, with or without slashes |
| `CanonicalQuery.EncodeClean` | internal/s3api/handler.go:1000-1018 | encoded text contains no separator |
| `CanonicalQuery.SortedUnique` | internal/s3api/handler.go:1045-1050 | there is one sorted arrangement of a multiset of pairs, whatever the sorting algorithm |
| `CanonicalQuery.BeforeMeans` | internal/s3api/handler.go:1045-1050 | pairs are ordered by encoded name, and by encoded value under the same name |
| `CanonicalQuery.JoinMeans` | internal/s3api/handler.go:1051-1060 | name, equals sign and value of each pair, with an ampersand between pairs |
| `CanonicalQuery.BuildCanonicalQuery` | internal/s3api/handler.go:1033-1061 | in whatever order the map yields its names, the result is a sorted arrangement of the encoded unskipped pairs, joined |
| `CanonicalQuery.CanonicalIff` | internal/s3api/handler.go:1033-1061 | two queries have the same canonical string iff under every name that is not skipped they have the same values equally often; with one query twice, independence of iteration order |
| `Ranges.ParseByteRange` | internal/s3api/handler.go:579-626 | for all header texts and sizes an accepted range lies within the object |
| `Ranges.ParserConforms` | internal/s3api/handler.go:579-626 | for every spec of the grammar, digits of any length, the parser selects exactly the bytes section 2.1 of RFC 7233 asks for, refuses when there are none and ignores invalid specs, iff the spec is invalid or its numbers fit 64 bits and a suffix is not of length 0 |
| `Ranges.LenientHeaders` | internal/s3api/handler.go:586-617 | in all three forms, plus signs and any white space around the numbers, which the grammar does not have, are accepted and change nothing, and so is a minus sign before a last position of zero |
| `Ranges.ParserMeans` | internal/s3api/handler.go:579-626 | the parser answers exactly the headers that read as a spec of the grammar with that slack, representable and not inverted, and selects what that spec asks for; every other text is ignored |
| `Ranges.NotARange` | internal/s3api/handler.go:581-595 | a text without the unit, with a comma or without a dash is never a range |
| `EndToEnd.PlanRead` | internal/s3api/handler.go:497-514 | one location per chunk row and the half-open range of the inclusive one, or the whole object |
| `EndToEnd.GetObject` | internal/s3api/handler.go:423-576 | the response refuses exactly unsatisfiable ranges, is a 502 with the error of window 0 iff that window failed, otherwise announces the selected slice over a reader whose windows are the object's own bytes; no window fails iff every needed part has an enabled replica that yields it and no window's deadline expired, which none does without a timeout |
| `EndToEnd.ServesAll` | internal/s3api/handler.go:456-470 | a GET without a Range header, in another unit, with several ranges or without a dash selects the whole object |
| `EndToEnd.PrimeDecides` | internal/s3api/handler.go:560-567 | whatever the schedule, Prime reports an error other than end of file exactly in the 502 case, and that error |
| `EndToEnd.RoundTrip` | internal/s3api/handler.go:497-576 | a GET delivers only a prefix of the selected slice until its reader is closed, and under every diligent scheduler ends with all goroutines gone, and with all of the slice, of exactly the announced length, if no needed read failed |
| `EndToEnd.Download` | internal/s3api/handler.go:423-576 | on a store any run of transactions has produced: not found iff the key is absent, otherwise the response fits the header, and if no needed read fails and no deadline expires the reader delivers exactly the announced slice of the stored body under every diligent scheduler |
| `PutThenGet.SettledHolds` | internal/storage/freehost/backend.go:161-266 | the early and late replicas of an uploaded chunk hold its bytes on distinct providers |
| `PutThenGet.Put` | internal/s3api/handler.go:249-304 | a PUT commits the chunk map of its payload under its ETag, as a version whose rows locate the payload's slices, or changes nothing; uncancelled it fails only for a bad ending, a wrong declared length or a chunk nobody takes; every other object stays |
| `PutThenGet.Execute` | internal/metadata/store.go:274-544 | the store's methods carry out the transactions of a run |
| `PutThenGet.LateIsLegit` | internal/s3api/handler.go:252-262 | every straggler of a PUT is a late append that store runs allow, whenever it comes |
| `PutThenGet.StragglersAnywhere` | internal/s3api/handler.go:252-262 | any of a PUT's stragglers, in any order, between any liveness marks and after any run, are operations that may follow |
| `PutThenGet.PutGet` | internal/s3api/handler.go:223-576 | PUT, then any appends (its stragglers in any order and number, or none yet), marks and repairs, then GET: the response is right for the uploaded payload and any Range header, and if every needed part has an enabled replica that yields it in time, exactly that slice of the payload is delivered under every diligent scheduler; every other object keeps its size and ETag |

## Left out

- Provider adapters and their HTTP clients: a provider is a map from locators to bytes with an outcome oracle.
- Routing, XML, CORS, header echo, conditional requests, object metadata and content types: plumbing that would only add easy members.
- HMAC, SHA-256, MD5, base64 and clocks: ETags are arbitrary functions of the content they are computed from.
- Configuration parsing and wiring, and the unused block cache.
- Real time: hedge delays, per-replica timeouts and the deadline of a window are nondeterministic choices.
- Freedom from leaked blobs: clean-up is best effort, and parts left out of a completion are not reaped.
- Consistency of the separate object and chunk-map reads of one GET; `EndToEnd.Download` reads both at one point.
- Deleting a bucket and other operations on buckets; listing uploads and stale uploads.
- Reads of length zero.
- Unicode white space and Unicode case folding beyond ASCII, in the Range header, chunk headers and part tags.
- Listing.ListObjectsPage: returns keys; the other columns of a row follow its key.
- CanonicalQuery.BuildCanonicalQuery: the library sort is replaced by an insertion sort; `SortedUnique` shows that the choice does not matter.
- ChunkSource.ReadPart: the path for backends without hedged reads is not modelled; the gateway's backend has them.
