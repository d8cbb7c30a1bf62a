# A verified model of RRDtool's cache daemon, archives and Holt-Winters updates

This Dafny project models the parts of RRDtool whose behaviour is hardest to see
from one function alone, and proves properties of them that hold for every input,
every run or every interleaving. `dafny verify dfyconfig.toml` checks all of it.

The daemon (`rrdcached`):

- `CacheModel` describes the cache tree and the write queue as values, with one
  function for each section that runs under `cache_lock`.
- `CacheHeap` is the daemon's own structure: a tree of items that are linked into a
  queue through `prev` and `next`, with flags, head, tail and a length counter.
  Every method is proved to do on the heap what the function of `CacheModel` does.
- `CacheHistory` and `CacheRuns` interleave clients, queue threads and the flush
  thread, one critical section at a time, and keep the history of every value.
- `CacheExecution` performs such runs on the daemon's own structure.
- `Journal` is the journal: what the requests and writers leave in the file, what a
  replay rebuilds from it, and what a crash in the middle of a write leaves.
- `Wire`, `WireClient` and `WireBuffers` follow a request from the client's buffer to
  the fields that the server decodes inside its read buffer. `Batch` is the response
  side.

The archives:

- `Archive` is the common view of a round-robin archive: the ring of rows in the
  file and the rows from oldest to newest.
- `Resize`, `DumpRestore` and `Fetch` are the loops over the file, with its read and
  write positions, proved against that view.

Arithmetic in place:

- `Reduce` and `CommonStep` are `reduce_data` and `lcd`; `Smoother` is
  `apply_smoother` with its queue; `HoltWinters`, `SeasonalFile` and `Failures` are the
  aberrant behaviour updates; `Diff` and `Exchange` are `rrd_diff` and getopt's `exchange`.
- `Arithmetic` holds the facts about products and quotients that the others need.

Values of archives are exact real numbers or unknown (`NaN`), times are integers, and
`strtod` is a parameter that may answer anything.

## What the code does not promise

Where a law that one would expect is false, the project states when exactly it holds:

- `rrd_diff` accepts numbers of up to 30 digits, but its result buffer has room for 28:
  it writes behind the buffer if and only if both texts are accepted and one number has
  29 or 30 digits (`Diff.Diff`, with an instance in `Diff.NoRoom`).
- A request reaches its handler unchanged if and only if no field holds a newline and
  the last field does not end in a carriage return (`Wire.RequestArrivesExactly`; an
  instance is `Wire.OtherFileFlushed`).
- A `wrote` line is written after the lock is released. A replay stays in agreement
  with the cache if and only if no other value of the file was accepted or taken in
  between; for a `forget` line, if and only if the file did not become known again
  (`Journal.StepAgrees`; a run that loses a value is `Journal.LateLineExample`).
- The `wrote` line follows the write. A value that a replay rebuilds after a crash has
  been written before if and only if its write was over when the daemon crashed
  (`Journal.WrittenTwice`; an instance is `Journal.StoredAndRebuiltExample`).
- A journal line is read back as one entry if and only if it is at least two characters
  shorter than the entry buffer (`Journal.OneEntry`); the server accepts longer lines.
- A `forget` line holds the file name as it is, and the replay decodes it: it names
  the same file if and only if the name has neither a blank nor a backslash
  (`Journal.ForgetLineNames`; an instance is `Journal.OtherFileForgotten`).
- The sanity check of `reduce_data` ends the program if and only if no multiple of the
  new step lies between the two ends and the reduction factor does not divide the
  range of a word (`Reduce.ReduceData`, with an instance in
  `Reduce.SanityCheckFires`). If the factor does divide it, two unknown rows are
  written where one fits the range.
- The order of the archives decides the stored seasonal value and deviation in a step
  in which HWPREDICT starts over; `HoltWinters.SeasonalOrderMatters` and
  `HoltWinters.DeviationOrderMatters` say exactly when, and `SeasonalOrderInstance` and
  `DeviationOrderInstance` show files for which it does, with MHWPREDICT. With HWPREDICT
  no new file gets there without a reset (`SeasonalFile.NewFilesAlike`).
- FAILURES finds the deviation by comparing its place with that of SEASONAL. That is
  right if and only if SEASONAL and DEVSEASONAL stand on the same side of it
  (`HoltWinters.FailuresFindsDeviation`), as they do in files that `rrdtool create`
  lays out (`Failures.ContingentTests`).
- The smoother reads values that it has smoothed already where a window runs past the
  end of the season (`Smoother.SmoothedAt`, with an instance in
  `Smoother.SmoothedBehind`). With MHWPREDICT, moving the mean to the
  intercept changes forecasts, apart from the cases in `Smoother.RecentringForecast`
  (`Smoother.RecentringChanges` is a forecast that changes); if the mean is not positive,
  all seasonal values become unknown.
- `MyMod` returns an index behind the last one for negative multiples of the modulus
  (`Smoother.MyModIsIndex`); the smoother never passes one.

## Model

| member | source | states |
|---|---|---|
| CacheModel.AcceptedIsLongestRise | src/rrd_daemon.c:1411-1449 | An UPDATE accepts the longest prefix of its values whose stamps strictly rise from the item's newest stamp, and fails exactly if that is not all of them |
| CacheModel.AddToAccepted | src/rrd_daemon.c:1411-1449 | Values accepted before a rejected one stay appended, in order, and the newest stamp is that of the last accepted value |
| CacheModel.SweepByCollecting | src/rrd_daemon.c:769-838 | Collecting stale items during the traversal and removing them afterwards removes exactly the stale items that were not queued, in spite of the removals changing the tree |
| CacheModel.SweepLosesNothing | src/rrd_daemon.c:769-838 | A sweep queues exactly the due items besides those queued before, keeps every item it does not purge unchanged, and purges only items without values |
| CacheModel.SweepByTime | src/rrd_daemon.c:769-838 | A sweep with a positive age queues the items with values that were last flushed at least that long ago, behind those that wait already, and purges the items without values that were last flushed at least the flush interval ago |
| CacheModel.UpdateQueuesDue | src/rrd_daemon.c:1446-1458 | If all values are accepted the file waits exactly if it waited before, or has values and was last flushed at least the write interval ago; it waits at the end, and a rejected request leaves the queue alone |
| CacheModel.Update | src/rrd_daemon.c:1312-1471 | UPDATE keeps every queued file in the tree with something to write, and adds or drops no tree entry (what it accepts and when it queues is stated by the rows above) |
| CacheModel.Take | src/rrd_daemon.c:920-940 | Taking the head of the queue keeps the queue free of duplicates and of items with nothing to write |
| CacheModel.EnqueueHead | src/rrd_daemon.c:709-762 | Moving an item to the front of the queue keeps it queued once |
| CacheModel.Forget | src/rrd_daemon.c:684-703 | Removing an item leaves no queue entry behind |
| CacheHeap.Daemon.RemoveFromQueue | src/rrd_daemon.c:656-679 | Unlinking an item at the head, the tail, in the middle or not queued at all leaves one doubly linked list without it, with its flag, the length counter and all other items right |
| CacheHeap.Daemon.Enqueue | src/rrd_daemon.c:709-762 | Enqueueing at head or tail keeps the list, flags and counter, moves an item that is queued already only when asked for the head, and ignores items without values |
| CacheHeap.Daemon.TakeBatch | src/rrd_daemon.c:920-940 | The head's values are handed over whole and in order, and the heap then is the model after the take |
| CacheHeap.Daemon.FlushFile | src/rrd_daemon.c:1096-1122 | FLUSH of a known file with values moves it to the front of the queue |
| CacheHeap.Daemon.UpdateItem | src/rrd_daemon.c:1411-1457 | The update loop and the enqueue test on the heap item do what the model's UPDATE says, including the requests that fail part way |
| CacheHeap.Daemon.InsertItem | src/rrd_daemon.c:1367-1399 | A new item enters the tree unqueued and empty |
| CacheHeap.Daemon.RemoveItem | src/rrd_daemon.c:684-703 | Removing from the tree unlinks from the queue, so that no link leads to a freed item |
| CacheHeap.Daemon.Wrote | src/rrd_daemon.c:1476-1498 | A `wrote` line met in replay drops values and queue entry and keeps the item and its stamp |
| CacheHeap.Daemon.Sweep | src/rrd_daemon.c:800-838 | The two passes of a sweep over the heap do what the model's sweep says |
| CacheHeap.Daemon.ModelWellFormed | src/rrd_daemon.c:656-762 | The heap's invariant gives the model's: every queued file is in the tree, once, with values, so the assertions about queued items cannot fail |
| CacheHistory.StepKeepsAccounts | src/rrd_daemon.c:893-979 | Every event keeps, for every stay of a file in the tree: accepted values are the values taken by writers in dequeue order followed by what is left, with strictly rising stamps |
| CacheHistory.RelockedKeeps | src/rrd_daemon.c:1340-1457 | This holds also when another UPDATE added the entry while the lock was given up |
| CacheHistory.StepConserves | src/rrd_daemon.c:920-975 | Every dequeued batch is in the hands of exactly one writer or written, as often as it was dequeued |
| CacheHistory.StepTimely | src/rrd_daemon.c:642-650 | No flush time runs ahead of the clock by more than the write jitter |
| CacheHistory.SweepAllQueuesAll | src/rrd_daemon.c:800-838 | After FLUSHALL or the sweep at exit every item with values is queued, and nothing that was purged had any |
| CacheHistory.UpdateWaits | src/rrd_daemon.c:1340-1458 | In every run, when an UPDATE of a known file, or one that took the lock again, leaves its file waiting for a writer |
| CacheHistory.FlushTimes | src/rrd_daemon.c:642-650 | In every run, the flush time of an item is when a writer took it last, or when the UPDATE that added it began, with less than the write jitter on top; nothing else changes it |
| CacheHistory.FlushOldByTime | src/rrd_daemon.c:800-838 | In every run, what the flush thread's sweep queues and purges, by the clock, the write interval and the flush interval |
| CacheHistory.FlushAllQueuesAll | src/rrd_daemon.c:1225-1234 | FLUSHALL queues every item with values, behind those that wait already, and purges exactly the items without values that are old enough |
| CacheHistory.FlushQueuesFirst | src/rrd_daemon.c:1096-1122 | FLUSH makes a file with values the next one to be written and leaves the others in their order |
| CacheHistory.WorkersGoOn | src/rrd_daemon.c:893-979 | A queue thread can always go on, unless there is nothing to write and no shutdown |
| CacheRuns.EveryRunIsAccounted | src/rrd_daemon.c:893-979 | The accounts hold at every moment of every interleaving |
| CacheRuns.OnlyForgetDiscards | src/rrd_daemon.c:1263-1292 | Accepted values that no writer took are pending, unless a FORGET of that file happened |
| CacheRuns.EveryRunDrains | src/rrd_daemon.c:883-979 | With flush at shutdown, values accepted before the final sweep stay queued until a writer takes them, as long as a writer is left |
| CacheRuns.MarksOfFinalSweep | src/rrd_daemon.c:883-891 | What the final sweep marks as accepted is what had been accepted |
| CacheRuns.FlushedAtShutdown | src/rrd_daemon.c:883-979 | With flush at shutdown, once all queue threads have exited, every value accepted before the final sweep has been written, unless it was pending when a FORGET dropped it |
| CacheExecution.Perform | src/rrd_daemon.c:893-979 | Each event of a run, performed on the linked items, leaves them as the cache of the run and hands out its batch |
| CacheExecution.Execute | src/rrd_daemon.c:893-979 | So does a whole run on a new daemon: the pointers, flags and batches are those that the theorems about runs speak of |
| Journal.ForgetLineNames | src/rrd_daemon.c:1263-1292 | A `forget` line names the same file when it is replayed exactly if the name holds no blank and no backslash |
| Journal.OtherFileForgotten | src/rrd_daemon.c:1263-1292 | A path with a blank whose `forget` line forgets another file in replay |
| Journal.FieldsInOrder | src/rrd_daemon.c:1411-1449 | The value fields are those of the line, in its order, each with the stamp that strtod finds in it |
| Journal.AbsPathIs | src/rrd_daemon.c:1084-1094 | A relative name stands below the base directory, an absolute one by itself, and doing it twice changes nothing |
| Journal.ParseEscaped | src/rrd_daemon.c:1325-1449 | The arguments of an UPDATE, escaped as clients do it, are read as the path and the values in their order, whatever characters they hold |
| Journal.ClientUpdateArrives | src/rrd_client.c:576-624 | What rrdc_update builds makes the server add the values to the file in their order, with the time in place of `N` |
| Journal.HandleUpdate | src/rrd_daemon.c:1408-1409 | Replaying an `update` line decodes the same arguments the request had |
| Journal.HandleWrote | src/rrd_daemon.c:1476-1498 | Replaying a `wrote` line finds the file of any name |
| Journal.StepAgrees | src/rrd_daemon.c:920-975 | A step keeps the replayed cache in agreement with the running one exactly if its journal line comes in time |
| Journal.LateLineLoses | src/rrd_daemon.c:942-953 | After an UPDATE, a FLUSH, another UPDATE and then the `wrote` line of the first value, replay has lost the second value |
| Journal.LateLineExample | src/rrd_daemon.c:942-953 | Such a run with two values of one file |
| Journal.ReplayRebuilds | src/rrd_daemon.c:1971-2089 | For every run whose lines come in time, replay rebuilds the files, stamps and values, with the values in flight before the pending ones |
| Journal.HistoryReplays | src/rrd_daemon.c:1971-2089 | For every history of UPDATE, write-out and FORGET, replay rebuilds the same files, pending values in order and newest stamps, including UPDATEs rejected part way |
| Journal.ReplayFile | src/rrd_daemon.c:2056-2081 | The replay loop handles exactly the entries whose last character, as strlen finds it, is a newline |
| Journal.FGets | src/rrd_daemon.c:2061-2063 | An entry is a line, or as much as the buffer holds |
| Journal.OneEntry | src/rrd_daemon.c:2056-2075 | A line is read back as the one entry it was written as if and only if the entry buffer has room for it, its newline and the final zero |
| Journal.TornJournal | src/rrd_daemon.c:2056-2075 | A journal that was cut at any byte yields all of its complete lines and nothing else |
| Journal.CrashRecovers | src/rrd_daemon.c:1997-2089 | After a crash that cuts the journal anywhere, replay rebuilds a state the run went through: the one whose lines are those that survived |
| Journal.RunCounts | src/rrd_daemon.c:893-979 | In every run, the values a file accepted since it was last forgotten are those the journal records as written and those still held, each as often |
| Journal.RunStores | src/rrd_daemon.c:942-953 | They are also those in the archive and those the daemon still owes to it, each as often |
| Journal.StoredOrOwed | src/rrd_daemon.c:942-953 | An accepted value is in the archive if and only if the daemon does not owe it any more |
| Journal.NothingLost | src/rrd_daemon.c:1971-2089 | After a crash that cuts the journal anywhere, every accepted and unforgotten value whose line survived is recorded as written by a line that survived, or is rebuilt by replay, and not both |
| Journal.WrittenTwice | src/rrd_daemon.c:942-953 | A value that is rebuilt after such a crash is in the archive as well, and so is written twice, if and only if the daemon did not owe it to the archive any more; for files that were not forgotten behind the cut |
| Journal.StoredAndRebuilt | src/rrd_daemon.c:942-953 | A run in which the cut comes between an `update` line and the `wrote` line of its value, which is stored and rebuilt |
| Journal.StoredAndRebuiltExample | src/rrd_daemon.c:942-953 | Such a run with one value of one file |
| Journal.SurvivesExactly | src/rrd_daemon.c:1408-1409 | The `update` lines that survive are those of the steps up to the state that replay rebuilds |
| Wire.FieldsOfEncoded | src/rrd_client.c:123-171 | Decoding undoes escaping for every list of strings without NUL |
| Wire.RequestArrivesExactly | src/rrd_daemon.c:472-506 | A request arrives as the same fields exactly if no field holds a newline and the last does not end in a carriage return |
| Wire.ReturnIsLost | src/rrd_daemon.c:472-506 | A last field that ends in a carriage return arrives without it |
| Wire.OtherFileFlushed | src/rrd_daemon.c:472-506 | A FLUSH that for this reason names another file |
| Wire.LinesOfRest | src/rrd_daemon.c:472-506 | Splitting a stream into lines may stop and go on at any point |
| WireClient.RequestBuffer.AddString | src/rrd_client.c:123-171 | An escaped field and its blank are added exactly if they fit, and otherwise the buffer is as before |
| WireClient.DecimalReads | src/rrd_client.c:173-186 | The decimal text of a number reads back as the number and has no leading zero |
| WireClient.DatedIs | src/rrd_client.c:173-186 | `N:` becomes the current time and a colon, every other value stays as it is |
| WireClient.RequestBuffer.AddValue | src/rrd_client.c:173-186 | A value goes out with the current time for `N`, and the cut of long values never reaches the wire |
| WireClient.BuildUpdate | src/rrd_client.c:576-624 | The request is sent exactly if its encoding fits the buffer, and then is the message of its fields |
| WireClient.AnyCutIsReadable | src/rrd_daemon.c:2268-2280 | A request that the client could build fits the read buffer however the stream is cut |
| WireClient.SendUpdate | src/rrd_client.c:576-624 | From the arguments of rrdc_update to the server: sent exactly if it fits, and however it is cut, read as exactly these fields if and only if no field holds a newline and the last does not end in a carriage return |
| WireBuffers.GetField | src/rrd_daemon.c:981-1042 | A field is unescaped in place without touching bytes that are still to be read |
| WireBuffers.DecodeLine | src/rrd_daemon.c:981-1042 | Repeated decoding in place yields the fields of the line |
| WireBuffers.ReadBuffer.NextCmd | src/rrd_daemon.c:472-506 | The next complete line is cut out with its newline and one carriage return replaced, or what is left moves to the front |
| WireBuffers.ReadBuffer.CutLine | src/rrd_daemon.c:489-502 | The line ends in a NUL inside the buffer and the rest of the input is untouched |
| WireBuffers.ClosesIsQuit | src/rrd_daemon.c:1656-1664 | Of the requests with a complete first field exactly QUIT, in any mixture of cases, ends the connection |
| WireBuffers.Drain | src/rrd_daemon.c:2284-2290 | The complete lines of the buffer are handled up to one that ends the connection, and the positions stay in order |
| WireBuffers.Serve | src/rrd_daemon.c:2268-2290 | However the stream is cut into reads, the requests are those of the whole stream, up to the first that ends the connection: QUIT, or a line without a complete first field |
| Batch.CountLines | src/rrd_daemon.c:556-570 | Counts newlines |
| Batch.LineReads | src/rrd_daemon.c:575-640 | A line reads back as its number, a blank and its message |
| Batch.Session.SendResponse | src/rrd_daemon.c:575-640 | What goes to the socket and what is kept, inside and outside of a batch, for success and failure |
| Batch.Session.RunBatch | src/rrd_daemon.c:1501-1522 | After the dot the client is told the number of failed commands, followed by one line for each |
| Batch.ReportLines | src/rrd_daemon.c:556-640 | The lines that are counted are as many as the commands that failed |
| Batch.EntriesAreFailures | src/rrd_daemon.c:1796-1826 | There is a line for every failed command, with its number and message, and no other |
| Batch.EntriesRise | src/rrd_daemon.c:1796-1826 | The numbers in front of the lines strictly rise |
| Archive.ChronAt | src/rrd_dump.c:411-420 | The k-th oldest row stands k + 1 places behind the row pointer, around the ring |
| Archive.FileRow | src/rrd_fetch.c:366-369 | Where a row of an archive stands in the file |
| Resize.GrownView | src/rrd_resize.c:211-227 | GROW puts unknown rows before the oldest row |
| Resize.ShrunkView | src/rrd_resize.c:228-265 | SHRINK drops exactly the oldest rows, whether or not they wrap around the end of the ring |
| Resize.ShrinkUndoesGrow | src/rrd_resize.c:211-265 | SHRINK by the same number undoes GROW, down to the order of rows in the file |
| Resize.GrowAfterShrink | src/rrd_resize.c:211-265 | GROW after SHRINK has unknown rows in place of the lost ones |
| Resize.ShrinkTarget | src/rrd_resize.c:228-265 | The loops with the moving `remove_end`, `cur_row`, `row_cnt` and `modify` write and skip exactly that |
| Resize.GrowTarget | src/rrd_resize.c:211-227 | Rows up to the pointer, then the new unknown values, make the file of the grown archive |
| Resize.MoveRest | src/rrd_resize.c:267-278 | The rest of the file is copied and the guard against overlong input never applies |
| Resize.Resize | src/rrd_resize.c:38-294 | Which requests fail, leaving all as it was; otherwise header and new file encode the same archives with only the target resized, filling the announced size exactly |
| DumpRestore.RingViews | src/rrd_restore.c:1177-1193 | Turning rows into a ring and reading the ring from behind the pointer are inverse to each other |
| DumpRestore.InRangeIs | src/rrd_restore.c:319-337 | With the check on, a known value stays exactly if the known limits of its source admit it and otherwise becomes unknown; with the check off nothing changes |
| DumpRestore.ParseRow | src/rrd_restore.c:346-370 | A row is accepted exactly if it has a value for every data source; with the range check, values outside the limits of their data source, and no others, become unknown |
| DumpRestore.ParseDatabase | src/rrd_restore.c:372-434 | The rows of an archive are appended in order to those of the archives before it, and counted; the first bad row fails |
| DumpRestore.ParseDatabases | src/rrd_restore.c:372-434 | All archives end up one behind the other, each with its own row count |
| DumpRestore.WriteFile | src/rrd_restore.c:1177-1193 | The two slices written for each archive form the ring with the pointer anywhere |
| DumpRestore.DumpRra | src/rrd_dump.c:410-444 | The row loop with its wrap lists the rows oldest first with their stamps |
| DumpRestore.Dump | src/rrd_dump.c:202-446 | All archives are dumped from their places in the file |
| DumpRestore.RestoreThenDump | src/rrd_restore.c:1177-1193 | For every list of archives of any length that a restore accepts, a dump of the restored file lists the rows in their order, whatever the row pointers, with out-of-range values unknown if the range check is on |
| DumpRestore.ListedCell | src/rrd_dump.c:410-444 | A cell of that dump is the value that was read, in its place and with the stamp of its place, unless its range does not admit it |
| DumpRestore.First | src/rrd_first.c:60-92 | The time of the first entry is the stamp of the first dumped row; a wrong index gives -1 |
| DumpRestore.RowTimes | src/rrd_dump.c:422-427 | Stamps are multiples of the step, rise by one step a row and end at the last whole row before the last update |
| DumpRestore.GrowKeepsStamps | src/rrd_resize.c:211-227 | After GROW every old row is dumped with the stamp it had |
| DumpRestore.ShrinkKeepsStamps | src/rrd_resize.c:228-265 | After SHRINK every remaining row is dumped with the stamp it had |
| Fetch.CoveredFromOldest | src/rrd_fetch.c:268-282 | An archive reaches back to one step before the stamp of its oldest row |
| Fetch.NoWorseMeans | src/rrd_fetch.c:268-338 | The preference among archives of one function, by the stamps of their oldest rows, the start and the distances of the steps |
| Fetch.Choose | src/rrd_fetch.c:268-338 | No archive of the wanted function is a better choice: reaching back first, then distance from the step, or time covered and then that distance; an error exactly if there is none |
| Fetch.Align | src/rrd_fetch.c:340-344 | The start moves down and the end up to multiples of the step, the end always by something |
| Fetch.Place | src/rrd_fetch.c:368-403 | The offsets count steps from the oldest row, the file is positioned exactly if the range meets the archive, and the pointer is that of the first row to read |
| Fetch.ReadRows | src/rrd_fetch.c:405-465 | Rows inside the archive come from the ring in order, others are unknown, and nothing is read if the file was not positioned |
| Fetch.Fetch | src/rrd_fetch.c:205-467 | One row fewer than there is room for: one for every step between the aligned ends |
| Fetch.WantedRow | src/rrd_fetch.c:372-378 | Row j is the row that a dump would stamp j + 1 steps behind the start, or unknown if there is none |
| Reduce.Min | src/rrd_graph.c:758-760 | The minimum is one of the values and no value is smaller |
| Reduce.Max | src/rrd_graph.c:761-765 | The maximum is one of the values and no value is greater |
| Reduce.CombinedKnown | src/rrd_graph.c:738-791 | A consolidated cell is known exactly if its group has a known value |
| Reduce.CombinedMinimum | src/rrd_graph.c:758-760 | MIN gives a value of the group, and no known value is smaller |
| Reduce.CombinedMaximum | src/rrd_graph.c:761-765 | MAX and FAILURES give a value of the group, and no known value is greater |
| Reduce.CombinedLast | src/rrd_graph.c:766-768 | LAST gives the value of the last row that has one |
| Reduce.CombinedAverage | src/rrd_graph.c:750-789 | AVERAGE and the functions of Holt-Winters give a value that, times the number of known values, is their sum |
| Reduce.CombineCell | src/rrd_graph.c:738-791 | The loop over a column consolidates exactly its known values |
| Reduce.CombineRow | src/rrd_graph.c:737-792 | A destination row may overwrite source cells of its own group, but none that is still needed |
| Reduce.CombineRows | src/rrd_graph.c:736-795 | All groups are combined in the buffer that holds them |
| Reduce.RemainingRows | src/rrd_graph.c:698-716 | The remaining count is a multiple of the factor, or minus one factor modulo the word exactly if no multiple of the new step lies between the ends |
| Reduce.ReducedCount | src/rrd_graph.c:698-801 | One destination row for each interval between the new ends, and no more than there were source rows |
| Reduce.ReducedRow | src/rrd_graph.c:698-801 | A row whose interval was fetched completely consolidates exactly its source rows, others are unknown |
| Reduce.RowByTime | src/rrd_graph.c:644-814 | In seconds: the rows consolidated are those stamped inside the destination row's interval |
| Reduce.ReduceData | src/rrd_graph.c:644-814 | When the sanity check fires; otherwise new ends, new step, the reduced rows in the buffer and nothing behind the source rows touched |
| Reduce.SanityCheckFires | src/rrd_graph.c:722-730 | A range and a step for which it fires |
| CommonStep.GcdAllDivisors | src/rrd_graph.c:965-982 | The common divisors of all steps are exactly the divisors of the result |
| CommonStep.Euclid | src/rrd_graph.c:974-979 | The inner loop leaves the divisor of two neighbouring cells in both |
| CommonStep.Lcd | src/rrd_graph.c:967-982 | The loop over the zero-terminated array returns the greatest common divisor of all steps |
| HoltWinters.RoundIs | src/rrd_hw.c:406-495 | Whatever the order of the archives, what a round computes in closed form |
| HoltWinters.OrderIndependent | src/rrd_hw_update.c:38-365 | With known intercept and slope two orders give the same coefficients, prediction, seasonal value and deviations |
| HoltWinters.RoundsOrderIndependent | src/rrd_hw_update.c:38-365 | The same after any number of rounds; with MHWPREDICT as long as no seasonal value is zero or negative |
| SeasonalFile.RoundFree | src/rrd_hw_update.c:38-365 | When a round stores the same in every order of the archives |
| SeasonalFile.RoundFreeOnlyThen | src/rrd_hw_update.c:38-365 | Otherwise two orders with HWPREDICT on different sides store different values |
| SeasonalFile.RoundReadsAhead | src/rrd_update.c:1841-1890 | After every round the scratch areas hold the seasonal value and the deviation of the rows that the next round overwrites |
| SeasonalFile.OneSeasonAgo | src/rrd_update.c:1841-1890 | The seasonal value and the deviation that stand ready for a round are those that were stored one season before it |
| SeasonalFile.StoredInRound | src/rrd_update.c:1898-1960 | What was stored in a round is the output of that round |
| SeasonalFile.FilesAlike | src/rrd_update.c:1841-1890 | With the seasonal rings read ahead of every round and written behind it, two orders of the archives give the same file, as long as no round of one of them depends on the order |
| SeasonalFile.NewFilesAlike | src/rrd_update.c:1841-1890 | With HWPREDICT, from a new file on they always do, for any values and row pointers |
| HoltWinters.SeasonalOrderMatters | src/rrd_hw_update.c:117-230 | Exactly when two orders of the archives store different seasonal values |
| HoltWinters.SeasonalOrderInstance | src/rrd_hw_update.c:117-230 | The first value of a new file with MHWPREDICT for which they do |
| HoltWinters.DeviationOrderMatters | src/rrd_hw_update.c:262-365 | Exactly when two orders of the archives store different deviations |
| HoltWinters.DeviationOrderInstance | src/rrd_hw_update.c:262-365 | A state after two seasons of two rows for which they do |
| HoltWinters.TwoSeasonsStored | src/rrd_hw_update.c:117-365 | The rounds that lead there find in the archives what the rounds before stored |
| HoltWinters.DeviationAgainstPrediction | src/rrd_hw_update.c:232-365 | The deviation is measured against the prediction that HWPREDICT stores in the same step, and DEVPREDICT stores the deviation from before the step, in any order of the archives |
| HoltWinters.ErrorCorrection | src/rrd_hw_math.c:21-126 | A round with a known value moves the intercept from the expected level by alpha times the error of the stored prediction, the slope by beta times the surprise in the intercept and the seasonal value by gamma times its surprise, in any order of the archives, additive or multiplicative |
| HoltWinters.InterceptError | src/rrd_hw_math.c:30-41 | The formula as error correction of the stored prediction; with MHWPREDICT (lines 73-88) the error is divided by the seasonal value |
| HoltWinters.SlopeError | src/rrd_hw_math.c:119-126 | The slope moves by beta times the part of the intercept's change that it did not foresee |
| HoltWinters.SeasonalError | src/rrd_hw_math.c:43-51 | The seasonal value moves by gamma times its own error, whichever archive is updated first; with MHWPREDICT (lines 90-102) it becomes unknown exactly if the intercept is not positive |
| HoltWinters.MissedRound | src/rrd_hw_update.c:38-365 | A round without a value predicts one step further, counts it, and leaves coefficients, seasonal value and deviation as they are |
| HoltWinters.FirstSeasonRound | src/rrd_hw_update.c:38-365 | In the first season nothing is predicted and nothing learned but a seasonal value that makes up the observed value together with the intercept |
| HoltWinters.StartingRound | src/rrd_hw_update.c:38-115 | The first value becomes the intercept, without slope and prediction |
| HoltWinters.LosingRound | src/rrd_hw_math.c:73-88 | With MHWPREDICT a value met with a seasonal value of zero or less loses the coefficients and the seasonal value |
| HoltWinters.FailuresFindsDeviation | src/rrd_hw_update.c:393-404 | The deviation found by the place of SEASONAL is the one from before the step exactly if SEASONAL and DEVSEASONAL stand on the same side |
| HoltWinters.ViolationAgainstPrediction | src/rrd_hw_update.c:405-455 | Then a violation is an observed value that is missing or outside the band around the stored prediction |
| HoltWinters.Scratch.UpdateHwPredict | src/rrd_hw_update.c:38-115 | The coefficients from before are kept aside; then the prediction is stored, and the coefficients follow a known value, start over from it, or count one more miss, with the seasonal value of the slot that SEASONAL has or has not moved on yet |
| HoltWinters.Scratch.UpdateSeasonal | src/rrd_hw_update.c:117-230 | The seasonal value is moved on and the new one stored, using the intercept that HWPREDICT has computed already or will compute |
| HoltWinters.Scratch.UpdateDevSeasonal | src/rrd_hw_update.c:262-365 | The deviation is moved on and the new one stored, against a prediction that is made again from the values before the step, wherever they now are |
| HoltWinters.Scratch.TestViolation | src/rrd_hw_update.c:369-455 | No violation without a deviation, a violation for a missing value, otherwise one exactly outside the band; the scratch values stay |
| HoltWinters.Scratch.Update | src/rrd_hw.c:406-495 | A round updates every archive in the order of the indices |
| Failures.Window.Shift | src/rrd_hw_update.c:457-475 | The window moves on by one flag, and a failure is stored exactly if at least the threshold of its flags are set |
| Failures.CountNewest | src/rrd_hw_update.c:457-466 | Counting the window is counting the violations of the last rounds |
| Failures.Watch | src/rrd_hw_update.c:369-475 | Over every run, the value stored in a round is a failure exactly if at least the threshold of the last rounds violate, and the window is their flags, newest first |
| Failures.CreateContingent | src/rrd_create.c:621-690 | The five archives stand in the layout of the runs, each finds the ones it needs by the index it holds, and their rows, gamma, deltas, threshold and window length are the stated ones |
| Failures.FailuresFollows | src/rrd_hw_update.c:379-386 | From its index FAILURES gets to DEVSEASONAL, HWPREDICT and SEASONAL |
| Failures.ContingentTests | src/rrd_create.c:621-690 | In these places FAILURES tests against the stored prediction and deviation |
| Smoother.MyModIsIndex | src/rrd_hw.c:497-512 | The index on the ring, except for negative multiples of the modulus |
| Smoother.Fifo.Push | src/rrd_hw.c:540-546 | A value joins the end of the queue, which never holds more than its capacity |
| Smoother.Fifo.Pop | src/rrd_hw.c:548-553 | The oldest value leaves the queue |
| Smoother.SmoothedAt | src/rrd_hw.c:212-231 | Every result is the mean around its place, with smoothed values where the window runs past the end |
| Smoother.SmoothedInside | src/rrd_hw.c:212-231 | Where the window ends inside the season, the result is the mean of the original values around its place on the ring |
| Smoother.SmoothedBehind | src/rrd_hw.c:212-231 | A season in which a later result is not |
| Smoother.SmoothOne | src/rrd_hw.c:212-231 | The running sum is always the sum of the queue, which holds the values around the next place |
| Smoother.Smooth | src/rrd_hw.c:197-237 | The season is smoothed in place and its mean returned |
| Smoother.OffsetIs | src/rrd_hw.c:140-148 | The window is the number of whole rows in half of its share of the season |
| Smoother.ApplySmoother | src/rrd_hw.c:128-312 | Nothing changes if a value of any data source is unknown or the window is too short; otherwise the season of every data source is smoothed. Smoothed deviations are written as they are; with HWPREDICT no forecast changes by moving the mean to the intercept |
| Smoother.SeasonCentred | src/rrd_hw.c:240-271 | With HWPREDICT the written season is the smoothed one less its mean, and adds up to zero |
| Smoother.SeasonScaled | src/rrd_hw.c:240-271 | With MHWPREDICT it is the smoothed one divided by its mean, with mean one, or unknown if the mean is not positive |
| Smoother.RecentringKeepsForecast | src/rrd_hw.c:240-271 | With HWPREDICT no forecast changes when the mean moves to the intercept |
| Smoother.RecentringForecast | src/rrd_hw.c:240-271 | With MHWPREDICT, exactly when a forecast does not change, for every mean |
| Smoother.RecentringChanges | src/rrd_hw.c:240-271 | A forecast that does |
| Diff.Scan | src/rrd_diff.c:50-67 | The first run of digits, and whether a minus sign stands before it |
| Diff.TextDenotes | src/rrd_diff.c:50-67 | A text of other characters, digits and something else denotes the digits, negative exactly if a minus sign stands in front of them |
| Diff.Lengths | src/rrd_diff.c:68-75 | Numbers of the same sign with up to 30 digits are accepted, and those with up to 28 fit |
| Diff.Subtract | src/rrd_diff.c:78-103 | Digits and borrow denote the difference |
| Diff.Complement | src/rrd_diff.c:104-114 | The loop forms the ten's complement |
| Diff.Diff | src/rrd_diff.c:41-123 | Unknown exactly without digits, with different signs or more than 30 digits; a write behind the result buffer exactly for the other numbers of more than 28 digits; otherwise the exact difference of the two numbers |
| Diff.NoRoom | src/rrd_diff.c:75-81 | A number of 29 digits for which the buffer is too small |
| Diff.DiffBothWays | src/rrd_diff.c:41-123 | Exchanging the numbers changes the sign |
| Exchange.Rotate | src/rrd_getopt.c:319-348 | The loop of swaps exchanges the two blocks, each in its order, and moves nothing else |
| Exchange.Getopt.Exchange | src/rrd_getopt.c:307-354 | The recorded places name the same arguments afterwards |

## Left out

- UPDATE that finds the daemon in shutdown after taking the lock again: it returns with the lock held (src/rrd_daemon.c:1402-1403); this path is not a step of the model.
- Waiting on and signalling condition variables, so that nothing is said about progress of FLUSH or of queue threads.
- Journal rotation and several journal files: a rotation may drop lines of values that are only queued.
- Purged entries and the journal: a purge leaves no line, so a replay still knows the file and its newest stamp.
- check_file_access, stat of a file before its first UPDATE, and file names longer than a path may be; an UPDATE of an unknown file may fail at this point, which is an event of the runs.
- strtod reads a stamp or none; stamps that are not numbers or infinite are not modelled.
- rrd_update_r and what happens when a write fails; a batch counts as written when the call returns.
- Statistics other than the queue length, logging, permissions of sockets, and responses other than the two forms that BATCH collects.
- Messages that do not fit the response buffer, and BATCH sessions that end without the dot.
- Lines longer than the read buffer.
- Journal.ReplayRebuilds: its runs have no UPDATE whose line is longer than the entry buffer, which the server would copy without its end, and no FORGET of a name with a blank or a backslash.
- WireBuffers.Serve: does not model handlers other than QUIT that end the connection, because a response cannot be sent, or a QUIT that the socket does not permit.
- Resize.Resize: does not model the conversion of the file version or the rest of the header, which is copied.
- Restoring: tags and the text of numbers; the model starts from the values in each row of each archive.
- Fetch.Fetch: does not model names of data sources or reading through libdbi.
- Reduce.ReduceData: takes times and steps whose numbers of steps fit half a word, a reduction factor that fits an int, and row counts that the fetched buffer has room for.
- WireClient.BuildUpdate: get_path, which makes the file name absolute, runs before and is not modelled.
- Diff.Diff: the source ends each argument behind its digits in place and the model takes the digits out.
- Smoother.ApplySmoother: the source interleaves the loops over data sources with those over rows; the model smooths one column after the other, and takes the window between 0 and 1.
- Resetting coefficients, and the decision when to smooth.
- SeasonalFile.FilesAlike: does not model updates of several steps at once or smoothing between the rounds; rings and row pointers are values, not places in the file.
- HoltWinters: the scratch areas of the archives are fields of one object for each data source, not slots that areas of different kinds share.
- Rounding of floating point numbers, and printing and reading them as text.
- Failing allocations.
