# Logging daemon: verified models of its buffers, codecs and readers

This project models the hard parts of a logging system in Dafny and proves what they are for. Run
`dafny verify dfyconfig.toml` here to check all of it.

**Serialized log buffer** (`Bytes`, `EntryLayout`, `SerializedChunk`, `SerializedLists`, `FlatReader`,
`SerializedWiring`, `SerializedFlushToState`, `SerializedBuffer`, `SerializedRuns`). Each of eight logs is
a list of byte chunks; only the back one is writable, the others are compressed. A reader holds a cursor
(chunk and byte offset) per log and merges the logs by sequence number; chunks count their readers. The
lock is dropped while an entry is written to a client, so `FlushTo` is a method that runs from taking the
lock to giving it up, and any other step may come in between. `SerializedRuns.Run` takes an arbitrary
sequence of such steps. `FlatReader.Tracks` is the invariant a reader keeps, stated on flat sequences of
entries: behind every cursor there are only passed numbers, deliveries are in order, and every visible
entry passed was offered to the filter, is older than the reader, or was appended below its start. What
this means for one entry is `SerializedRuns.NextFlushOffers`: whatever happens in between, an entry still
there when a flush completes was offered if and only if the reader had not passed its number when it was logged.
After any run each log holds a suffix of everything logged to it and not cleared for its uid.

**Simple and Chatty buffers** (`LogStats`, `ListElements`, `SimpleBuffer`, `ChattyMarks`, `ChattySweep`, `ChattyPrune`,
`ChattyDedup`, `ListRuns`). One list shared by all logs, with a cached iterator per log, pruning that stops
at the slowest reader, a three-pass pruner with watermark iterators, and squashing of repeated messages.
`ListRuns.ChattyBuffer` puts the squashing in front of the list; over every run each log's messages are all
accounted for: in the list, behind a count in the list, erased, held back or added to another, and no element
is both in the list and erased, or erased twice.
`ChattySweep.RoundDone` says what a round of the pruner's first pass does to the list: what it takes and why, what is
erased and what is squashed, how chatty elements are merged, where the offender's watermark is left and why it ended.
`ChattySweep.PruneDone` strings rounds and the two later passes together.
`LogStats` says what it means for the statistics to agree with the stored elements; both families of
buffers keep that.

**Event lists** (`EventFormat`, `EventParser`, `EventLoose`, `EventRoundTrip`, `EventWriter`, `EventLists`). The binary
event format, its writer and its pull parser, and exactly when they are inverse; what is read from payloads with
stop bytes, which liblog does not write, and from payloads cut short.

**Smaller parts**: files kept in the pmsg log (`PmsgFiles`), the two-pass tail reader (`TailReader`) and the
prune rules (`PruneRules`).

How things are modelled:

- A chunk list holds chunk values, as the original's list does; chunk `base + j` keeps that name for its
  life, which is what a list iterator gives. `SerializedLogChunk` is the same chunk on the level of bytes,
  every method of it proved to do to the abstract chunk what the list model assumes.
- In the shared list an iterator is named by the sequence number of its element, which is unique.
- Logging is one step: the serialized buffer takes the number just before the lock, and entries of one
  log are in order only if no other logger comes in between.
- Compression is any pair of functions with decompress(compress(x)) = x and non-empty output. Filters,
  prune rules, worst offenders, the comparison of two messages and whether a property lets a message
  through are arbitrary parameters. Ghost fields record what a reader was offered and sent.
- The size of a chunk object is taken as 80 bytes, that of a list element as 56.

Properties that turned out not to hold as one would expect are stated with the exact condition under which
they do, and with an input where they fail:

- A flush that ends raises `start` even with nothing to read. The next entry logged is offered to the reader
  if and only if its start was below that entry's number before the flush (`SerializedRuns.IdleFlushSkips`);
  the very first entry can be lost that way (`SerializedRuns.FirstEntrySkipped`).
- A uid clear in a reader's unlocked window that leaves the entry being written makes the flush send it again
  if the filter lets it through, and nothing else is ever sent twice (`SerializedBuffer.SerializedLogBuffer.FlushTo`,
  `SerializedRuns.Run`); `SerializedRuns.EntryWrittenTwice` is such a run.
- The search for a start number in the shared list is complete if and only if no newer element precedes an
  older one (`SimpleBuffer.StartFindsAll`). The Chatty buffer does not keep to that: a message it held back can
  come after a newer one of another log, and a reader that starts at the newer one misses it (`ListRuns.HeldBackMessageHides`).
- What squashing hands on is in order unless a payload sum overflows over a held-back count that then has to
  go with nothing but sums in between (`ChattyDedup.BrokenIff`, `ChattyDedup.LogAll`);
  `ChattyDedup.FullSumBreaksOrder` is such a run.
- A payload sum below -2^31 comes out 2^32 too large; otherwise, and with that accounted for always, payloads
  are conserved up to those of squashed messages (`ChattyDedup.UnderIff`, `ChattyDedup.LogAll`);
  `ChattyDedup.SumWraps` is such a run.
- A reader that waits for more with a tail and a start time gets its tail less the number of matching entries stamped
  exactly then; if that leaves nothing, it is never sent anything (`TailReader.LogReaderThread.Follow`, `TailReader.NeverServed`).
- An inner list closed by a stop byte reads back whole (`EventRoundTrip.StopsReadBack`), but if the payload's own list is
  ended only by one, the last element is not marked complete; the next read is (`EventRoundTrip.ShortReadBack`).
- The pruner's keys tell sources apart if pids and tids fit 16 bits (`ChattyMarks.SameKeySameSource`), and not
  beyond that (`ChattyMarks.WideKeysCollide`). A first pass may use up its last row without taking a message
  (`ChattyPrune.ChattyLogBuffer.FirstPass`).
- A tail request with a start time gets what it asks for, whatever is appended in the windows of its second
  pass, if and only if no matching entry is stamped exactly then or none is after it (`TailReader.AlwaysRightIff`).
  With one of each, `TailReader.Since5` sends nothing of the one entry asked for, or one entry more.
- Event lists longer than 127 or nested too deep never read back (`EventRoundTrip.MisreadValue`), and a cut string
  moves the write position past the payload (`EventWriter.EventList.WriteString8Len`).
- A pmsg piece is empty if and only if the tag leaves a single byte of room and no line end is there to cut at
  (`PmsgFiles.NextTransfer`).

The comment in `log_event_list.cpp` calls reading on after a failure undefined; the code is well defined and
`EventParser` covers it.

## Model

| member | source | states |
|---|---|---|
| `EntryLayout.DecodeEncoded` | logd/SerializedLogEntry.h:34-99 | an entry written anywhere in a buffer decodes to itself, whatever bytes surround it |
| `EntryLayout.FieldsAt` | logd/SerializedLogEntry.h:34-99 | where each field of an entry lies in its bytes, and how wide it is |
| `EntryLayout.DecodeRangeEncoded` | logd/SerializedLogChunk.h:38-56 | iterating over entries written one after another yields exactly them, in order |
| `EntryLayout.DecodeAtBoundary` | logd/SerializedLogChunk.h:81-84 | at every boundary between entries the bytes decode to the entry at that index |
| `EntryLayout.BoundaryStep` | logd/SerializedLogChunk.h:43-46 | a boundary before the end has an entry at it, and stepping by its total length is the next boundary |
| `SerializedChunk.RemoveFirst` | logd/SerializedLogChunk.cpp:65-70 | exactly one occurrence of the reader goes |
| `SerializedChunk.Resize` | logd/SerializedData.h:32-46 | the common prefix is kept, and the buffer is new unless its size stays the same |
| `SerializedChunk.SerializedLogChunk.constructor` | logd/SerializedLogChunk.h:58-58 | an empty writable chunk of the given size |
| `SerializedChunk.SerializedLogChunk.FinishWriting` | logd/SerializedLogChunk.cpp:28-38 | compresses exactly the logged bytes, frees them unless a reader holds them, and keeps the logged entries recoverable |
| `SerializedChunk.SerializedLogChunk.IncReaderRefCount` | logd/SerializedLogChunk.cpp:42-48 | the first reference to a compressed chunk brings back exactly the logged bytes |
| `SerializedChunk.SerializedLogChunk.DecReaderRefCount` | logd/SerializedLogChunk.cpp:50-58 | the last reference frees the bytes of a compressed chunk; the entries stay recoverable |
| `SerializedChunk.SerializedLogChunk.AttachReader` | logd/SerializedLogChunk.cpp:60-63 | lists the reader once more and takes a reference |
| `SerializedChunk.SerializedLogChunk.DetachReader` | logd/SerializedLogChunk.cpp:65-70 | unlists one occurrence of the reader and gives its reference back |
| `SerializedChunk.SerializedLogChunk.CanLog` | logd/SerializedLogChunk.cpp:80-82 | true exactly when the bytes fit behind those already logged |
| `SerializedChunk.SerializedLogChunk.Log` | logd/SerializedLogChunk.cpp:84-92 | the chunk then holds its earlier entries followed by the new one, byte for byte |
| `SerializedChunk.SerializedLogChunk.LogEntry` | logd/SerializedLogChunk.h:81-84 | an accessible chunk yields the logged entry at any boundary offset |
| `SerializedChunk.SerializedLogChunk.Iterate` | logd/SerializedLogChunk.h:38-91 | whatever finishing, attaching and detaching came before, iteration yields exactly the logged entries in order |
| `SerializedChunk.SerializedLogChunk.PruneSize` | logd/SerializedLogChunk.h:77-79 | the chunk object plus its compressed bytes, or plus the whole buffer while nothing is compressed |
| `SerializedChunk.EntriesTaken` | logd/SerializedLogChunk.cpp:28-92 | over any sequence of logging, finishing, holding and letting go, a chunk's entries are those that found room before it was finished |
| `SerializedChunk.LiveThrough` | logd/SerializedLogChunk.cpp:28-92 | byte for byte, after any such life, iterating an accessible chunk yields exactly those entries |
| `SerializedLists.SearchLands` | logd/SerializedFlushToState.cpp:42-67 | where the chunk search and then the offset search stop, everything before is below start and nothing after is |
| `SerializedLists.AppendFlat` | logd/SerializedLogBuffer.cpp:30-45 | appending adds the entry at the end of the log, moves no other, and leaves only the back chunk writable |
| `SerializedLists.AppendCases` | logd/SerializedLogBuffer.cpp:30-45 | the back chunk takes the entry exactly if it has room; otherwise it is finished, compressed as its entries, and a chunk of a quarter of the limit is opened for the entry |
| `SerializedLists.SizeIsBytes` | logd/SerializedLogChunk.h:77-79 | the sum over the chunks is that of their bytes: the buffer of the writable one, the compressed entries of the others |
| `SerializedLists.AppendLinked` | logd/SerializedLogBuffer.cpp:30-45 | appending, with or without opening a chunk, leaves every cursor valid and at the same entry |
| `SerializedLists.PopLinked` | logd/SerializedLogBuffer.cpp:215-224 | erasing a deserted front chunk keeps all other cursors and counts them down by its entries |
| `SerializedLists.AttachLinked` | logd/SerializedLogChunk.cpp:60-63 | attaching keeps: cursors valid, each listed once by its chunk, reference count equal to the readers listed |
| `SerializedLists.DetachLinked` | logd/SerializedLogChunk.cpp:65-70 | detaching keeps the same, and the reader to detach is always found, on a chunk with a positive count |
| `SerializedLists.PrefixLeavesEnough` | logd/SerializedLogBuffer.cpp:185-230 | the shortest prefix that frees the excess leaves at most the limit, and never the back chunk if that alone fits |
| `SerializedWiring.RewireOne` | logd/SerializedFlushToState.cpp:42-160 | one reader changing one cursor, mirrored by one chunk, keeps all readers and all logs consistent |
| `SerializedWiring.StepChunkWired` | logd/SerializedFlushToState.cpp:82-92 | moving from the end of one chunk to the next keeps everything consistent |
| `SerializedWiring.AppendWired` | logd/SerializedLogBuffer.cpp:30-45 | an append adds to one flat log only and moves no reader |
| `SerializedWiring.PopWired` | logd/SerializedLogBuffer.cpp:215-224 | erasing a front chunk drops exactly its entries from the flat log |
| `SerializedFlushToState.FlushToState.CreateLogPosition` | logd/SerializedFlushToState.cpp:42-67 | the cursor lands on the first entry numbered at least start, attached to its chunk |
| `SerializedFlushToState.FlushToState.FindChunk` | logd/SerializedFlushToState.cpp:45-51 | everything in earlier chunks is below start, and the chunk can hold start or is the last |
| `SerializedFlushToState.FlushToState.FindOffset` | logd/SerializedFlushToState.cpp:55-64 | a boundary with only lower numbers before it and none lower at it; the chunk is accessible |
| `SerializedFlushToState.FlushToState.UpdateLogsNeeded` | logd/SerializedFlushToState.cpp:69-98 | the reader stays at the same entry of the flat log, and is marked as needing more exactly at its end; the fatal branch is unreachable |
| `SerializedFlushToState.FlushToState.CheckForNewLogs` | logd/SerializedFlushToState.cpp:100-113 | every watched log with entries is located, each newly located one at the first entry not below start, and no other cursor moves |
| `SerializedFlushToState.FlushToState.HasUnreadLogs` | logd/SerializedFlushToState.cpp:115-123 | true exactly when some located log has an unread entry |
| `SerializedFlushToState.FlushToState.FindLowest` | logd/SerializedFlushToState.cpp:126-139 | finds a log whose next entry has the lowest number of all; the not-null check cannot fail |
| `SerializedFlushToState.FlushToState.PopNextUnreadLog` | logd/SerializedFlushToState.cpp:125-146 | takes the lowest-numbered next entry over all watched logs and advances that log by one |
| `SerializedFlushToState.FlushToState.Prune` | logd/SerializedFlushToState.cpp:148-160 | gives the cursor up: detached from its chunk, to be located again, everything else consistent |
| `SerializedFlushToState.FlushToState.Destroy` | logd/SerializedFlushToState.cpp:34-40 | detaches from every chunk; all other readers stay consistent |
| `FlatReader.TakeTracks` | logd/SerializedLogBuffer.cpp:257-266 | taking the next entry keeps the reader on track; it is newer than everything delivered |
| `FlatReader.SkipOldTracks` | logd/SerializedLogBuffer.cpp:262-264 | stepping over an entry below start keeps the reader on track |
| `FlatReader.EndTracks` | logd/SerializedLogBuffer.cpp:297-297 | raising start by one at the end of a flush keeps the reader on track |
| `FlatReader.EndedFlushIsComplete` | logd/SerializedLogBuffer.cpp:257-298 | after a flush that ran to the end every watched visible entry was offered, came too late, or is older than the reader, whose first number is never above its start |
| `FlatReader.AppendTracks` | logd/SerializedLogBuffer.cpp:145-162 | a concurrent append keeps every reader on track; only a number already passed is recorded as late |
| `FlatReader.PruneTracks` | logd/SerializedLogBuffer.cpp:185-230 | losing the front of a log, with or without the cursor, keeps every reader on track |
| `FlatReader.ClearTracks` | logd/SerializedLogBuffer.cpp:51-92 | a uid clear keeps every reader on track; an entry lies ahead again exactly for a reader that was writing it and if the clear left it |
| `FlatReader.IncreasingIff` | logd/SerializedLogBuffer.cpp:257-298 | deliveries, in order anyway, increase strictly if and only if none is a repetition |
| `FlatReader.TakeFacts` | logd/SerializedLogBuffer.cpp:257-266 | what is taken is the next: nothing watched is numbered between what was passed and it |
| `SerializedBuffer.SerializedLogBuffer.constructor` | logd/SerializedLogBuffer.cpp:94-112 | an empty consistent buffer; each log's limit is the configured size if that is from 64K to 256M, and 64K otherwise |
| `SerializedBuffer.SerializedLogBuffer.NotifyReadersOfPrune` | logd/SerializedLogChunk.cpp:72-78 | exactly the readers of that chunk lose their cursor into that log; the chunk is left with none; contents stay |
| `SerializedBuffer.SerializedLogBuffer.RemoveChunkFromStats` | logd/SerializedLogBuffer.cpp:177-183 | the statistics agree with the log without that chunk |
| `SerializedBuffer.SerializedLogBuffer.PruneFront` | logd/SerializedLogBuffer.cpp:215-224 | the front chunk goes, readers and statistics follow, other logs are untouched |
| `SerializedBuffer.SerializedLogBuffer.Prune` | logd/SerializedLogBuffer.cpp:185-230 | erases the shortest non-empty prefix of chunks holding the bytes to free, or all; readers and statistics follow |
| `SerializedBuffer.SerializedLogBuffer.GetSizeUsed` | logd/SerializedLogBuffer.cpp:313-319 | 80 bytes a chunk, plus the buffer of the one being written and the compressed entries of every other |
| `SerializedBuffer.SerializedLogBuffer.MaybePrune` | logd/SerializedLogBuffer.cpp:164-175 | afterwards the log is within its limit, by the shortest prefix, and a back chunk that fits on its own survives |
| `SerializedBuffer.SerializedLogBuffer.AppendEntry` | logd/SerializedLogBuffer.cpp:30-45 | the log grows by the entry at its end and every reader stays on track |
| `SerializedBuffer.SerializedLogBuffer.LogEntry` | logd/SerializedLogBuffer.cpp:151-162 | the log is its old entries without a prefix, then the new one; the prefix is the shortest run of chunks that brings the log within its limit; statistics agree |
| `SerializedBuffer.SerializedLogBuffer.Log` | logd/SerializedLogBuffer.cpp:136-162 | refusals, their codes and what they count; the entry is present afterwards with its first 4068 bytes or all of them, and their number is returned; only the shortest prefix of chunks was pruned for it |
| `SerializedBuffer.SerializedLogBuffer.SetSize` | logd/SerializedLogBuffer.cpp:329-341 | accepts exactly sizes from 64K to 256M; the log's bytes are within the new one at once, losing the shortest prefix of chunks, none if it already fits |
| `SerializedBuffer.SerializedLogBuffer.ClearAll` | logd/SerializedLogBuffer.cpp:301-311 | a root clear leaves nothing of that log and everything of the others |
| `SerializedBuffer.SerializedLogBuffer.Reflow` | logd/SerializedLogBuffer.cpp:78-89 | the entries of other uids are appended in order, chunks kept before stay, the statistics lose exactly the uid's entries |
| `SerializedBuffer.SerializedLogBuffer.Rebuild` | logd/SerializedLogBuffer.cpp:51-92 | all readers let go, and the new list is the log without the uid's entries |
| `SerializedBuffer.SerializedLogBuffer.UidClear` | logd/SerializedLogBuffer.cpp:232-244 | the log is exactly its entries of other uids in order; chunks before the first affected one stay as they are, those after it are a quarter of the limit; only the back chunk is writable; a reader will meet an entry again exactly if it was writing it and it is left |
| `SerializedBuffer.SerializedLogBuffer.UidClearTwice` | logd/SerializedLogBuffer.cpp:47-50 | clearing the same uid again changes no chunk |
| `SerializedBuffer.SerializedLogBuffer.CreateFlushToState` | logd/SerializedLogBuffer.cpp:246-249 | a new reader without cursors; all others stay on track |
| `SerializedBuffer.SerializedLogBuffer.DestroyFlushToState` | logd/SerializedFlushToState.cpp:34-40 | the reader is gone from every chunk; all others stay on track |
| `SerializedBuffer.SerializedLogBuffer.TakeNext` | logd/SerializedLogBuffer.cpp:257-266 | takes the next entry, or steps over an old one, or finds everything read; what remains to read decreases |
| `SerializedBuffer.SerializedLogBuffer.Scan` | logd/SerializedLogBuffer.cpp:257-283 | the loop up to the next entry the filter does not skip: nothing sendable is passed over, and nothing is delivered or skipped by it |
| `SerializedBuffer.SentAgainIff` | logd/SerializedLogBuffer.cpp:285-291 | an entry about to be sent was delivered before if and only if a clear left it in the window and the filter lets it through |
| `SerializedBuffer.SerializedLogBuffer.FlushTo` | logd/SerializedLogBuffer.cpp:251-299 | up to the unlocked window: the entry sent is the first sendable one from where the reader goes on; it was sent before if and only if a clear left the entry being written and the filter lets that through, and then it is that one; at the end nothing sendable is left and everything visible is accounted for; a filter stops it only at a watched visible entry with nothing sendable before |
| `SerializedBuffer.SerializedLogBuffer.FlushAll` | logd/SerializedLogBuffer.cpp:251-299 | an uninterrupted flush sends exactly the watched, visible, accepted entries numbered at least start, in strictly increasing order over all logs |
| `SerializedRuns.Guarantees` | logd/SerializedLogBuffer.cpp:251-341 | between any two steps: logs ascending, deliveries in order, as many repetitions as were counted and strictly increasing if and only if there are none, each cursor at an entry boundary of a live accessible chunk that lists its reader once, reference count equal to readers, nothing from the reader's first number on lost, statistics exact |
| `SerializedRuns.Run` | logd/SerializedLogBuffer.cpp:136-341 | every interleaving of logging, clearing, resizing, readers coming and going and cut flushes keeps all of that; numbers given out and readers are those the steps ask for; each log is a suffix of what was logged to it and not cleared for its uid, and ends with the last message if nothing has taken entries of it since; each reader's deliveries increase strictly if and only if no step sent an entry again, which takes a uid clear |
| `SerializedRuns.LastEntered` | logd/SerializedLogBuffer.cpp:136-162 | a log whose last step let a message through ends with that message: its uid, pid, tid, time, number, and all of it or its first 4068 bytes |
| `SerializedRuns.Perform` | logd/SerializedLogBuffer.cpp:136-341 | one step: the next number is used exactly for a message let through; logs it is not about stay, the others lose at most their oldest entries and never the message just logged; a uid clear takes exactly that uid's, a clear everything, and a new size brings the bytes within it; a flush delivers the entry it stops at or moves on; a repetition is added to a reader's deliveries if and only if it is that reader's flush and the entry a clear left passes its filter |
| `SerializedRuns.NewestNext` | logd/SerializedLogBuffer.cpp:30-92 | appending, clearing a uid and losing the oldest entries, in any order, leave the newest of what was entered |
| `SerializedRuns.NextFlushOffers` | logd/SerializedLogBuffer.cpp:257-298 | an entry is logged, any steps come, then a flush: it leaves the reader writing an entry, stopped by its filter, or caught up; a reader caught up was offered the entry, if that is still there, watched and visible, exactly if it had not passed its number when it was logged |
| `SerializedRuns.IdleFlushSkips` | logd/SerializedLogBuffer.cpp:297-297 | a flush that ends, then an entry, any steps and a flush: a reader then caught up was offered the entry if and only if its start was below its number before the first flush; a first flush that does not end has delivered something |
| `SerializedRuns.FirstEntrySkipped` | logd/SerializedLogBuffer.cpp:297-297 | a reader waiting on an empty buffer is never offered the first entry, which stays in the log |
| `SerializedRuns.EntryWrittenTwice` | logd/SerializedLogBuffer.cpp:51-92 | log, flush, clear another uid, flush: the only entry is delivered twice |
| `LogStats.AddAgrees` | logd/LogStatistics.cpp:126-199 | counters and uid rows follow an element being added |
| `LogStats.SubtractAgrees` | logd/LogStatistics.cpp:202-249 | counters and rows follow an element being removed from anywhere; a row vanishes exactly with its last element |
| `LogStats.DropAgrees` | logd/LogStatistics.cpp:253-288 | counters and rows follow a message being turned into a chatty element |
| `LogStats.EraseAgrees` | logd/LogStatistics.cpp:290-325 | counters and rows follow a chatty element being merged into an earlier one of the same source |
| `LogStats.SubtractRowAgrees` | logd/LogStatistics.h:162-167 | a table row equals the sums over its key and exists exactly while the key has an element |
| `LogStats.AgreesMeans` | logd/LogStatistics.cpp:126-249 | in terms of the entries of a serialized log: their number, their message bytes with or without headers, and a row with its bytes for every uid present and no other |
| `ListElements.CountedMeans` | logd/LogStatistics.cpp:126-325 | in terms of the elements of a log in the shared list: bytes with or without the list's own, elements, chatty elements, and for every uid present and no other its bytes and messages dropped |
| `SimpleBuffer.SimpleLogBuffer.GetOldest` | logd/SimpleLogBuffer.cpp:45-57 | the cached iterator yields what a scan of the whole list would: the first element of that log |
| `SimpleBuffer.SimpleLogBuffer.EraseElement` | logd/SimpleLogBuffer.cpp:318-337 | one element goes, the rest keeps its order, and every cached iterator stays live and early enough |
| `SimpleBuffer.SimpleLogBuffer.SubtractAndErase` | logd/SimpleLogBuffer.cpp:309-310 | statistics and list lose the same element |
| `SimpleBuffer.SimpleLogBuffer.OldestReader` | logd/SimpleLogBuffer.cpp:277-287 | the lowest start of any reader watching the log |
| `SimpleBuffer.SimpleLogBuffer.PruneUpTo` | logd/SimpleLogBuffer.cpp:289-316 | removes exactly the first rows matching elements up to the first one needed, keeps the rest in order, fails exactly when blocked; zero rows wrap around |
| `SimpleBuffer.SimpleLogBuffer.Prune` | logd/SimpleLogBuffer.cpp:275-316 | in addition, nothing a watching reader still needs goes, and no element being written out is touched |
| `SimpleBuffer.SimpleLogBuffer.Append` | logd/SimpleLogBuffer.cpp:104-111 | the list grows at its end and the statistics follow |
| `SimpleBuffer.SimpleLogBuffer.LogInternal` | logd/SimpleLogBuffer.cpp:104-111 | the new element goes last and pruning takes exactly as many of the oldest of its log as asked for, or as the slowest watching reader leaves free; nothing a reader needs goes |
| `SimpleBuffer.SimpleLogBuffer.Log` | logd/SimpleLogBuffer.cpp:81-102 | refusals and their codes; numbers taken under the lock keep the list ascending; the time stamp is slipped off round microseconds; the element goes last and the oldest of its log go, as many as asked for or free to go |
| `SimpleBuffer.SimpleLogBuffer.FlushTo` | logd/SimpleLogBuffer.cpp:135-213 | sends the first sendable element from where it was or where the search for start ends, leading chatty elements skipped; start is that element while it is written and one past the last visited at the end |
| `SimpleBuffer.StartFindsAll` | logd/SimpleLogBuffer.cpp:141-158 | the search misses no element from start on if and only if none of them comes before an older one; an ascending list always qualifies |
| `SimpleBuffer.SimpleLogBuffer.RemoveReader` | logd/LogReaderThread.cpp:105-114 | a reader that ends leaves the list, the statistics and the other readers' windows as they are |
| `ChattyMarks.TrimMerged` | logd/ChattyLogBuffer.cpp:241-255 | merging chatty elements loses no message and touches nothing protected |
| `ChattyMarks.TrimDropped` | logd/ChattyLogBuffer.cpp:536-537 | squashing a message into a chatty element loses none |
| `ChattyMarks.OtherLogSame` | logd/ChattyLogBuffer.cpp:332-617 | pruning one log leaves the elements of every other as they are |
| `ChattyMarks.TrimAgain` | logd/ChattyLogBuffer.cpp:567-617 | erasing the first matching elements after earlier trimming: what went was in the list before, of that log, needed by nobody and is gone, and its messages make up the difference |
| `ChattyMarks.AllFreeGone` | logd/ChattyLogBuffer.cpp:594-617 | once as many are erased as are free to go, nothing of the log is free to go |
| `ChattyMarks.SameKeySameSource` | logd/ChattyLogBuffer.cpp:278-280 | sources with equal keys are equal, for pids and tids of 16 bits |
| `ChattyMarks.WideKeysCollide` | logd/ChattyLogBuffer.cpp:278-280 | a pid of 17 bits gives a source the key of another uid's |
| `ChattyMarks.CountedMerge` | logd/ChattyLogBuffer.cpp:208-214 | the statistics agree after a merge |
| `ChattySweep.AlongLeft` | logd/ChattyLogBuffer.cpp:445-541 | an element that leaves the list keeps the round's account: what it has taken was doomed, not too old or new, erased exactly if a high priority rule matches or nothing of the log is kept before it, and nothing doomed is left behind |
| `ChattySweep.AlongStayed` | logd/ChattyLogBuffer.cpp:445-551 | an element that stays, or is squashed where it is, keeps that account |
| `ChattySweep.MemoryMerged` | logd/ChattyLogBuffer.cpp:241-255 | merging keeps: of each source the last chatty element is the one remembered, and two in a row stay apart only if their counts do not fit together, the first is due to be reported, or a high priority rule took one of that source |
| `ChattySweep.MemoryKept` | logd/ChattyLogBuffer.cpp:257-260 | a chatty element that is kept because it could not be merged keeps that, too |
| `ChattySweep.ForgottenIff` | logd/ChattyLogBuffer.cpp:264-275 | a source is forgotten exactly if it has dropped ten messages or more and its last chatty element is over ten seconds older, or less than ten seconds of time have passed |
| `ChattySweep.TakenForCause` | logd/ChattyLogBuffer.cpp:375-565 | every message the first pass takes is one a high priority rule matches, or of the worst offender given to one of its rounds |
| `ChattySweep.LowGoLast` | logd/ChattyLogBuffer.cpp:567-617 | the later passes take a low priority message only if nothing else of its log before the first element a reader needs is left |
| `ChattySweep.WhatGoes` | logd/ChattyLogBuffer.cpp:332-617 | over a whole pruning: a message goes for a cause of the first pass or because rows were left after it, and a low priority message for a cause or after everything else free |
| `ChattyPrune.ChattyLogBuffer.Unmark` | logd/ChattyLogBuffer.cpp:185-201 | no watermark refers to the element afterwards, all others are as they were, and none is new |
| `ChattyPrune.ChattyLogBuffer.Erase` | logd/ChattyLogBuffer.cpp:177-231 | list, cache, watermarks and statistics lose the same element |
| `ChattyPrune.ChattyLogBuffer.Merge` | logd/ChattyLogBuffer.cpp:241-255 | the count moves to the earlier element, at most 65535; list, cache, watermarks and statistics follow |
| `ChattyPrune.ChattyLogBuffer.Coalesce` | logd/ChattyLogBuffer.cpp:241-255 | merges with the last chatty element remembered of the same source exactly if there is one and the sum is at most 65535; otherwise that one is forgotten and nothing else changes |
| `ChattyPrune.ChattyLogBuffer.DropMessage` | logd/ChattyLogBuffer.cpp:536-537 | the element stands for its message; watermarks and statistics follow |
| `ChattyPrune.ChattyLogBuffer.Mark` | logd/ChattyLogBuffer.cpp:498-509 | exactly the watermarks asked for move to that live element, under its own keys |
| `ChattyPrune.ChattyLogBuffer.Round` | logd/ChattyLogBuffer.cpp:405-560 | from the offender's watermark or the oldest element on: what it takes was doomed and not too old or new; a message is erased exactly if a high priority rule matches or nothing of its log is kept before it, and squashed otherwise; of chatty elements of one source in a row none stay apart unless their counts do not fit together, the first is due to be reported, or a high priority rule took one of that source; nothing doomed is left behind, the offender's last chatty element is its watermark; it ended at the end of the list, out of rows, with the offender no longer the worst, at an element a reader needs or one too old or new, and not later; each row used took one message, the last perhaps none; another round is asked for exactly if it took one of the offender |
| `ChattyPrune.ChattyLogBuffer.FirstPass` | logd/ChattyLogBuffer.cpp:375-565 | rounds, each for the offender then given, that stop exactly when no rows are left, there is neither an offender nor a high priority rule, or a round does not ask for another; as many messages are taken as rows are used up, but for one when none are left; nothing protected is touched |
| `ChattyPrune.ChattyLogBuffer.EraseMatching` | logd/ChattyLogBuffer.cpp:350-373 | erases exactly the first matching elements up to the first one needed |
| `ChattyPrune.ChattyLogBuffer.SecondPass` | logd/ChattyLogBuffer.cpp:567-593 | erases exactly the first elements that are not low priority messages, as many as there are before the first one a reader needs or as rows are left, and stops with none left, at an element a reader needs, or out of rows |
| `ChattyPrune.ChattyLogBuffer.Prune` | logd/ChattyLogBuffer.cpp:332-617 | for any statistics and rules: other logs and everything readers need unchanged and in order, messages before equal messages after plus those of the erased elements, which no reader needs; for root, unless all is to go, exactly a first pass of rounds by the offenders and rules given and then the oldest elements, low priority messages last; each row used takes at most a message, and an element out or a message squashed but for one row; rows are left only if a reader needs the first element there is, which is failure, or there is none; a uid caller, and a root clear, remove exactly the first matching elements |
| `ListRuns.WindowIsSafe` | logd/SimpleLogBuffer.cpp:201-208 | the element a reader writes without the lock is in the list, unchanged, and alone with its number |
| `ListRuns.LaidUpAppended` | logd/ChattyLogBuffer.cpp:102-175 | handing an element on to the list keeps a log's messages accounted for, what was erased out of the list, and its elements in order if it came in order |
| `ListRuns.LaidUpTrimmed` | logd/ChattyLogBuffer.cpp:332-617 | pruning keeps every log's messages accounted for and its elements in order, and erases nothing twice |
| `ListRuns.ChattyBuffer.LogInternal` | logd/ChattyLogBuffer.cpp:102-175 | a message goes through the slots of its log and what they hand on goes to the list in that order, each followed by exactly the pruning asked for; every message of every log stays accounted for |
| `ListRuns.ChattyBuffer.Log` | logd/SimpleLogBuffer.cpp:81-102 | the message received is the one given, with the next number and the slipped time stamp; only two integer events compare as such |
| `ListRuns.ChattyBuffer.Prune` | logd/ChattyLogBuffer.cpp:332-617 | the list is pruned as above by the lowest start of the readers there are; exactly what that erased is added to what is gone |
| `ListRuns.Perform` | logd/SimpleLogBuffer.cpp:81-337 | one step: a message is received with the next number and what the slots hand on is added; a pruning does what it does to the list; readers come with what they ask for and go; nothing else changes list, slots or numbers |
| `ListRuns.Guarantees` | logd/ChattyLogBuffer.cpp:102-617 | between any two steps, per log: messages received are those in the list, behind counts in the list, erased by pruning, held back or added to another; erased elements were handed on, each once, and are not in the list; the log is in order in the list unless an overflow broke it; statistics exact |
| `ListRuns.Run` | logd/SimpleLogBuffer.cpp:104-337 | every interleaving of messages through squashing and the list, prunes, readers coming and going and cut flushes: all of that holds, every message logged was received by its log's slots, and each element being written out is in the list |
| `ListRuns.HeldBackMessageHides` | logd/SimpleLogBuffer.cpp:141-158 | a message held back goes behind a newer one of another log; a reader that starts at that one's number is sent a later element instead |
| `ChattyDedup.Deduplicator.LogInternal` | logd/ChattyLogBuffer.cpp:102-175 | messages in equal messages and chatty counts handed on plus those held back plus those added up; lifetime totals miss only the held-back one; payloads in equal those handed on, held and lost to squashing, less 2^32 per sum too small; what is handed on is in order if and only if no overflow broke it |
| `ChattyDedup.Deduplicator.EndRun` | logd/ChattyLogBuffer.cpp:120-133 | hands on the count if any, the message held back and the new one, in that order |
| `ChattyDedup.Deduplicator.AddUp` | logd/ChattyLogBuffer.cpp:142-161 | payloads are added up in 32 bits; a sum too large is handed on instead, over a count that is stale from then on |
| `ChattyDedup.Deduplicator.Squash` | logd/ChattyLogBuffer.cpp:163-175 | the held-back message joins the count, which restarts after 65535 and is no longer stale |
| `ChattyDedup.LogAll` | logd/ChattyLogBuffer.cpp:102-175 | over any run: totals, conservation of messages with those added up, conservation of payloads with those of squashed messages and 2^32 for each sum below -2^31, numbers increasing if and only if no overflow over a held-back count is followed, with only sums in between, by that count going; counts at most 65535 |
| `ChattyDedup.BrokenIff` | logd/ChattyLogBuffer.cpp:120-175 | step by step, the order is broken exactly if somewhere a sum overflowed over a count and only sums came before that count had to go |
| `ChattyDedup.PlainCourse` | logd/ChattyLogBuffer.cpp:120-175 | nothing is added up and nothing breaks without sums, and no payload is lost without identical messages |
| `ChattyDedup.UnderIff` | logd/ChattyLogBuffer.cpp:142-161 | no payload is off by 2^32 if and only if no sum is below -2^31 |
| `ChattyDedup.SumWraps` | logd/ChattyLogBuffer.cpp:142-161 | from an empty log: payloads -1, -2^31 and -1 leave 2^31 - 1 held back |
| `ChattyDedup.FullSumBreaksOrder` | logd/ChattyLogBuffer.cpp:59-100 | from an empty log: three equal events of the largest payload, one of payload 1 and another message are handed on out of order |
| `EventParser.ReadStaysOk` | liblog/log_event_list.cpp:354-535 | on any bytes a read stays in bounds, and one that neither fails nor completes lowers the measure |
| `EventParser.ReadingEnds` | liblog/log_event_list.cpp:347-353 | reading any bytes fails or completes within a bounded number of reads, with proper elements before that |
| `EventParser.EventReader.constructor` | liblog/log_event_list.cpp:61-67 | the parser of a message, cut to the largest payload, starts in bounds |
| `EventParser.EventReader.ReadNext` | liblog/log_event_list.cpp:354-543 | reading yields the specified element and state; peeking yields the same element and changes nothing; EventRoundTrip says from the bytes what that is |
| `EventParser.FailureStays` | liblog/log_event_list.cpp:347-394 | a failed read uses nothing up and fails again the same way, but for a stray stop byte outside any list, which is stepped over |
| `EventParser.BadBytes` | liblog/log_event_list.cpp:396-490 | a byte that is no type is a failure, and so is a string length from 65535 up to 2^31 |
| `EventFormat.BytesByPlace` | liblog/log_event_list.cpp:133-281 | the bytes of every type place by place: numbers with the least significant byte first, a string behind its length, a list behind its count |
| `Bytes.ByteOf` | liblog/log_event_list.cpp:164-202 | each byte of a little-endian number, by division |
| `EventRoundTrip.ReadValue` | liblog/log_event_list.cpp:354-535 | a value within the limits reads back as its stream whatever lists in it are closed by stop bytes, or announce more than they have and are; none of it is marked complete inside a list |
| `EventRoundTrip.MisreadValue` | liblog/log_event_list.cpp:492-514 | a value beyond the limits never reads back as its stream |
| `EventRoundTrip.RoundTrip` | liblog/log_event_list.cpp:354-535 | an encoded payload reads back as its stream, complete exactly at the last element, if and only if no list is longer than 127 or nested too deep |
| `EventRoundTrip.StopsReadBack` | liblog/log_event_list.cpp:354-535 | the same for payloads with a stop byte behind the last element of any of their lists: every element once, complete exactly at the last, if and only if no list is longer than 127 or nested too deep |
| `EventRoundTrip.ShortReadBack` | liblog/log_event_list.cpp:354-535 | a list that announces more than it has, ended by a stop byte: the same stream, but complete only on the read after the last element |
| `EventRoundTrip.CutReadsBack` | liblog/log_event_list.cpp:396-490 | a list cut anywhere behind its header: every element that is whole, then what is left of a string, or a failure |
| `EventWriter.Strnlen` | liblog/log_event_list.cpp:214-214 | the bytes before the first NUL, at most the given number |
| `EventWriter.EventList.constructor` | liblog/log_event_list.cpp:48-59 | an empty outer list |
| `EventWriter.EventList.WriteInt32` | liblog/log_event_list.cpp:164-182 | appends the encoding or, when full or overflown, changes nothing but the overflow mark |
| `EventWriter.EventList.WriteInt64` | liblog/log_event_list.cpp:184-202 | the same for 64 bits |
| `EventWriter.EventList.WriteFloat32` | liblog/log_event_list.cpp:239-257 | the same for the bits of a float |
| `EventWriter.EventList.WriteString8Len` | liblog/log_event_list.cpp:204-233 | appends the string, cut to the room left; the position stays within the payload exactly if it was not cut |
| `EventWriter.EventList.WriteListBegin` | liblog/log_event_list.cpp:133-162 | opens a list with a zero count when nesting and room allow |
| `EventWriter.EventList.WriteListEnd` | liblog/log_event_list.cpp:259-281 | stores the low byte of the number of elements in the list's header and nothing else |
| `EventWriter.EventList.WriteListBuffer` | liblog/log_event_list.cpp:318-345 | the payload with the outer list left away around at most one element; refused while a list is open |
| `EventLists.WriteValue` | liblog/log_event_list.cpp:133-281 | writing any value that fits through the calls appends exactly its encoding |
| `EventLists.WriteAll` | liblog/log_event_list.cpp:318-345 | the finished payload of a non-empty tree is the encoding of its only element, or of the list of all |
| `EventLists.WriteAndRead` | liblog/log_event_list.cpp:133-535 | written through the writer and read through the parser, a tree comes back as its stream if and only if it is within the limits |
| `PmsgFiles.Strnrchr` | liblog/pmsg_writer.cpp:172-180 | the last occurrence past the first byte, or the length |
| `PmsgFiles.NextTransfer` | liblog/pmsg_writer.cpp:233-239 | all of the rest if it fits, else up to the last line end past the first and before the last byte of room, else all but one byte of the room or all of it if a line end is there; empty exactly if there is room for one byte only and the rest neither starts with a line end nor fits |
| `PmsgFiles.WriteFile` | liblog/pmsg_writer.cpp:183-255 | pieces one after another, each cut there and taken, until all is written, 256 are, or one is not taken; what is reported is what they hold; an empty piece is followed by empty ones only |
| `PmsgFiles.Insert` | liblog/pmsg_reader.cpp:350-374 | one fragment per number, the latest, in ascending order |
| `PmsgFiles.Collect` | liblog/pmsg_reader.cpp:216-375 | each file holds exactly the latest accepted fragment of each number |
| `PmsgFiles.Assemble` | liblog/pmsg_reader.cpp:386-446 | fragments in order, one form feed for each missing earlier one, up to the last there is |
| `PmsgFiles.ReadBack` | liblog/pmsg_reader.cpp:216-446 | a complete set of pieces, in any order and any number of copies among other files, gives back their concatenation, trailing empty pieces included |
| `PmsgFiles.WriteAndRead` | liblog/pmsg_reader.cpp:216-446 | written in pieces and read from whatever order and number of copies they arrive in, the file reads back as exactly those pieces joined, the bytes reported written, all of them unless a write fails or 256 pieces are not enough |
| `TailReader.LogReaderThread.FilterFirstPass` | logd/LogReaderThread.cpp:117-123 | counts matching entries and sends none |
| `TailReader.LogReaderThread.FilterSecondPass` | logd/LogReaderThread.cpp:126-169 | in every state: an entry to be skipped ahead is skipped and counted down; otherwise past the first pass's count, or at a matching entry on release, it stops, and what does not match is skipped, with nothing changed; of what matches all but the last tail of the counted is skipped and the rest sent |
| `TailReader.LogReaderThread.TwoPasses` | logd/LogReaderThread.cpp:67-79 | with entries appended only while one is written, accepts a fixed slice of what the second pass counts; that is what the request asks for if and only if nothing is stamped at its start time, or nothing is after it, or the tail is long enough for all of them and nothing matching is appended |
| `TailReader.LogReaderThread.TwoPassesWith` | logd/LogReaderThread.cpp:53-79 | anything may be appended as soon as the second pass writes an entry of what the first has seen, and counts as if it had been there |
| `TailReader.LogReaderThread.Tail` | logd/LogReaderThread.cpp:67-79 | from the beginning of time: exactly the last min(tail, count) matching entries of the first pass |
| `TailReader.LogReaderThread.WakeUp` | logd/LogReaderThread.cpp:53-98 | one wake-up of a reader that waits: the last matching entries it is still owed, then every matching one appended meanwhile; it is still owed as much if there is none |
| `TailReader.LogReaderThread.Follow` | logd/LogReaderThread.cpp:53-169 | over any wake-ups: the last tail - b matching entries of the first wake-up that finds any, and every matching one from then on, where b of the matching ones are stamped exactly at the start time; nothing ever if b is the tail or more |
| `TailReader.NeverServed` | logd/LogReaderThread.cpp:53-169 | one entry stamped exactly at the start time and a tail of one: nothing is ever sent, whatever is logged |
| `TailReader.StartTimeShift` | logd/LogReaderThread.cpp:117-144 | with a start time the first pass counts exactly the matching entries stamped then in addition |
| `TailReader.TailIff` | logd/LogReaderThread.cpp:67-169 | for everything that can be appended, the entries accepted are the last asked for if and only if that condition on the three counts holds |
| `TailReader.AlwaysRightIff` | logd/LogReaderThread.cpp:67-169 | whatever can be appended, the request is served right if and only if no matching entry is stamped at its start time or none is after it |
| `TailReader.Since5` | logd/LogReaderThread.cpp:67-169 | entries stamped 5 and 6, a request for the last since 5: nothing is sent; for the last two: the one stamped 6 and one appended while it was written |
| `PruneRules.RoundTrip` | logd/PruneList.cpp:49-183 | the printed form of any rules that were parsed parses to the same rules in the same order |
| `PruneRules.RuleReadsBack` | logd/PruneList.cpp:31-43 | a printed rule reads back as itself up to the space behind it |
| `PruneRules.ParsedIsGood` | logd/PruneList.cpp:49-165 | whatever text is parsed, the rules that result are printable |
| `PruneRules.FilterCases` | logd/PruneList.cpp:49-87 | which text is taken: the caller's, unless missing or "default"; then the persistent property, unless "default"; then the read-only one, unless "default"; then the built-in rules; "disable" means none |
| `PruneRules.ParseForms` | logd/PruneList.cpp:89-165 | any white space separates, `!` means what `~` does, and what starts no rule is refused |
| `PruneRules.PruneList.Init` | logd/PruneList.cpp:49-165 | succeeds exactly on well-formed text and then holds the rules it lists, all of them printable |
| `PruneRules.PruneList.ReadRule` | logd/PruneList.cpp:129-157 | a uid, a pid or both, with 32-bit wrap-around of the uid |
| `PruneRules.PruneList.FormatAndInit` | logd/PruneList.cpp:167-183 | printing and initialising again restores flags and both lists, the empty list included |

## Left out

- Sockets, threads, condition variables, deadlines and sleeps: only lock-protected steps and the unlocked windows are modelled.
- SerializedBuffer.SerializedLogBuffer.ClearAll: an empty log is promised only below 2^64 bytes of chunks, which memory never reaches.
- SerializedBuffer.SerializedLogBuffer.Log: takes the sequence number under the lock, where the original takes it just before.
- SerializedBuffer.SerializedLogBuffer.UidClear: the original moves chunks between two lists as it goes; here the old list stays until the swap, all under one lock.
- SimpleBuffer.SimpleLogBuffer.Log: assumes a payload that is not empty and whose size in the list fits the statistics' 16 bits, as logd/LogListener.cpp:57-122 sees to; how many rows to prune is a parameter.
- ListRuns.ChattyBuffer.Log: assumes the same and, as the pruner's keys do, pids and tids of 16 bits; refused messages are left to SimpleBuffer.SimpleLogBuffer.Log; totals over a log's lifetime are kept by its slots.
- ChattyPrune.ChattyLogBuffer.Prune: the worst offender is whatever the caller supplies, not the one the statistics tables report.
- ChattyDedup.Deduplicator.LogInternal: how two messages compare is a parameter; of a log's lifetime totals the number of messages is claimed, not their bytes.
- PmsgFiles.NextTransfer: needs a byte of room; without any the original searches in front of the buffer, which is undefined.
- PmsgFiles.WriteFile: assumes a tag that leaves room for at least one byte per piece, for the same reason.
- TailReader.LogReaderThread.TwoPasses: nothing it has yet to visit is pruned in the windows of its second pass.
- PruneRules.PruneList.Init: overflow of a pid, undefined in the original, is a failure here.
- SimpleLogBuffer::Clear and KickReader: retries, sleeping and disconnecting slow readers around calls of Prune.
- LogStatistics::ShouldPrune, per-tag, per-pid and per-name tables, and all text output of statistics.
- The text of chatty messages, including which ones are called identical.
- Compression algorithms, kernel and audit log scraping, tag maps, printing of log entries and the logcat tool.
- The event API's null, mode and reset calls, and handing a finished payload to the logger.
- Which file names and tags the pmsg reader looks for: an arbitrary filter; the order in which it presents files.
