# HybridSE executor kernels, modelled and proved

HybridSE runs the same feature SQL offline over whole tables and online for one request row. Its executor
replaces simple definitions by fast ones: windows that slide instead of being rescanned, rows packed into bytes,
aggregates that share accumulators, handles that share buffers. This project models those kernels and proves, for
every input or every run, that the fast form means what the simple definition says.

* **Windows** (`WindowFrames`, `Windows`, `WindowRuns`, `HistoryRuns`, `RowCountRuns`). `HistoryWindow` and
  `CurrentHistoryWindow` keep a deque of visible rows and a side buffer. `WindowFrames.Rescan` is the reference: which
  newest rows of the whole history a frame selects. After every run of pushes, each followed by at most one of
  `HistoryWindow`'s pops, the deques are the rescan of the surviving history, for all three frame types and any size
  limit, with and without the current time excluded. More pops than that, pops at key zero, and the first of
  `CurrentHistoryWindow`'s own pops with the current time excluded have their exact conditions. Frames that end before
  the current row keep waiting rows in the buffer, and it is proved which rows are shown and which wait.
* **Requests and batches** (`RequestUnion`, `BatchOrder`, `BatchRunner`). `RequestUnionWindow` merges stored segments
  and scans them for one request. `RunWindowAggOnKey` feeds a window from an instance segment and union segments. The
  repository's central promise is that online and offline results are the same. It does not always hold, and for every
  instance row of every batch it is proved exactly when it does. The two merge orders are each other's reverse, but
  the batch side feeds only union rows strictly before the instance row, and a request finds those at its own key
  too. So for a frame that ends at the current row the windows are equal if and only if there is no union row at that
  key or those rows do not show. With the current time excluded they are equal at every positive key. For a
  range frame that ends earlier they are equal if and only if the batch window holds no stale row. Key zero has its
  own conditions.
* **Rows as bytes** (`Bytes`, `RowLayout`, `RowImage`, `RowWrites`, `RowBuilding`, `RowReading`, `RowViewing`,
  `NativeEncoding`, `RowViewException`, `NativeException`, `RowSelecting`). One predicate, `RowImage.Encodes`, says
  what a finished row is. `RowBuilder` and the generated encoder are proved to reach it, `RowView` and the generated
  decoder to invert it, and `RowSelector` to compose the two. The two derivations of the string slot width differ at
  a total size of exactly 2^24 bytes. There the emitted stores are followed byte by byte, and it is proved which rows
  the generated decoder still reads back, by a condition on the values and the memory given. For the row view the
  condition is on the values when no string is NULL, and otherwise on the words that the emitted row holds.
* **Aggregates** (`AggSchedule`, `AggProgram`). Scheduling cuts columns into generators; each generator's emitted
  program, run over the rows of a window, delivers the folds that SQL promises. The count is shared by the columns of
  a generator. The outputs are right if and only if, for every column, the leading column has as many numbers where
  a count or an average is asked for, and has none exactly when the column has none where a minimum or maximum is.
* **Smaller kernels** (`Common`, `RowConcat`, `SchemaCodec`, `RefCounting`, `MemPool`, `Lehmer`, `LehmerPowers`,
  `LehmerPeriod`). Row concatenation, the schema codec, reference-counted slices, the bump allocator, and the random
  generator, whose full period is proved.

Code that changes state step by step is imperative here too: classes with fields and `modifies` clauses, byte
arrays written in place, loops with invariants. Each such method is proved equal to a function of its old state, and
the theorems are about that function.

Where code and documentation disagree, the code is followed. Three points came out that way:

* `README.md:48-50` of the repository promises the same result online and offline.
  `BatchRunner.BatchIsOnlineIff` shows when union rows at an instance's own key break this, and
  `BatchRunner.RangeBatchIsOnlineUnlessStale` when a range frame that ends before the current row does.
* The diagram comment at `include/vm/mem_catalog.h:471-476` says that `CurrentHistoryWindow` has no side buffer. It
  has one when the current time is excluded, and its own `PopFrontData` overlooks it (`WindowRuns.TablePopIsRightIff`).
* The comment at `include/base/mem_pool.h:82-83` says that `Reset` keeps the last chunk. The code deletes every chunk.

Modelling choices: keys are below 2^63 and offsets are zero or negative, as the frames produce them, with the 64-bit
unsigned addition written out. Sizes of rows use 32-bit unsigned arithmetic, written out. Bytes are numbers from
0 to 255, and multi-byte numbers are little-endian except three-byte slots. Floating-point columns are opaque bit
patterns in rows. Segments, buffers, requests and input cells are parameters. `hide` statements in proofs only keep a
definition out of sight where it is not needed.

## Model

| member | source | states |
|---|---|---|
| `WindowFrames.TrimIsRescan` | include/vm/mem_catalog.h:428-456 | the two pop-back loops (size limit, then frame) leave exactly the newest rows that a scan of the whole deque selects, for every frame type |
| `WindowFrames.PushOntoCover` | include/vm/mem_catalog.h:428-456 | an evicted row is never needed again: pushing onto a deque that holds only the rows still needed gives the rescan of the whole grown history |
| `WindowFrames.PopLeavesCover` | include/vm/mem_catalog.h:371-382 | after the newest row is popped, the deque still holds every row that any later push can need |
| `Windows.HistoryWindow.constructor` | include/vm/mem_catalog.h:368-369 | both deques start empty |
| `Windows.HistoryWindow.BufferEffectiveWindow` | include/vm/mem_catalog.h:428-456 | the in-place loops push at the front and evict from the back exactly as the trimming function says; the side buffer is untouched |
| `Windows.HistoryWindow.BufferCurrentHistoryBuffer` | include/vm/mem_catalog.h:412-426 | the row joins the buffer, then every due row moves into the window, oldest first |
| `Windows.HistoryWindow.BufferCurrentTimeBuffer` | include/vm/mem_catalog.h:457-466 | with the current time excluded: the visible front goes, rows before the key move in, the new row is set aside and shown |
| `Windows.HistoryWindow.PopEffectiveData` | include/vm/mem_catalog.h:378-382 | removes the newest visible row if there is one, and nothing else |
| `Windows.HistoryWindow.BufferData` | include/vm/mem_catalog.h:383-409 | refuses exactly the keys below the newest visible one, changing nothing; otherwise takes the branch that row count and end offset call for |
| `Windows.HistoryWindow.BufferDataCurrent` | include/vm/mem_catalog.h:493-506 | the same refusal, and a push that ignores the end offset |
| `Windows.HistoryWindow.PopFrontData` | include/vm/mem_catalog.h:371-377 | takes the newest row of the buffer, or of the window when the buffer is empty |
| `Windows.HistoryWindow.PopFrontDataCurrent` | include/vm/mem_catalog.h:492 | takes the newest visible row whatever is set aside |
| `WindowRuns.CurrentWindowIsRescan` | include/vm/mem_catalog.h:428-506 | in every run of pushes with any keys, a push is refused iff its key is below the newest accepted key, and an accepted push leaves exactly the rescan of the accepted history |
| `WindowRuns.WindowWithoutInstanceIsRescan` | include/vm/mem_catalog.h:371-506 | with at most one pop after each push and nondecreasing keys, every push shows the rescan of the surviving rows and the new one, for all frames and size limits |
| `WindowRuns.MorePopsAreRightIff` | include/vm/mem_catalog.h:371-456 | after any such run and any number of further pops, the next push shows the rescan of what is left if and only if that selects no row which the window has evicted |
| `WindowRuns.TwoPopsLoseARow` | include/vm/mem_catalog.h:371-456 | an instance: a frame of two rows, and two pops lose a row that the frame still selects |
| `WindowRuns.DrainMovesDueRows` | include/vm/mem_catalog.h:412-426 | draining moves exactly the due part of the buffer, and the window becomes the rescan of those rows and the earlier history |
| `WindowRuns.ExcludingPush` | include/vm/mem_catalog.h:457-466 | one push with the current time excluded: the window is the new row and the frame's share of the strictly older rows, the buffer is exactly the rows at its key |
| `WindowRuns.ExcludingWindowIsRescan` | include/vm/mem_catalog.h:371-506 | after every turn of every run, with at most one pop of `HistoryWindow` per push and no popped row at key zero, the window is the newest accepted row and the frame's share of the strictly older survivors and the buffer is exactly the survivors at its key; exactly the keys below the newest accepted one are refused |
| `WindowRuns.ExcludingAccepted` | include/vm/mem_catalog.h:457-466 | after every accepted push of such a run: at a positive key the window is the new row and the frame's share of the strictly older survivors, and the buffer is exactly the survivors at that key; at key zero nothing is set aside and the row counts twice |
| `WindowRuns.ExcludingNeedsPositiveKeys` | include/vm/mem_catalog.h:457-466 | a first row is set aside iff its key is not zero, and shown once iff its key is not zero or the frame shows one row only |
| `WindowRuns.ZeroPopIsRightIff` | include/vm/mem_catalog.h:371-466 | after a pop at key zero the next window, at a positive key, is right if and only if it shows fewer rows than the window at key zero did, or the new row only; a next push at key zero always leaves the state of the survivors |
| `WindowRuns.PopsAgreeWhenPlain` | include/vm/mem_catalog.h:371-506 | without exclusion, runs that pop as `CurrentHistoryWindow` does and runs that pop as `HistoryWindow` does go through the same states |
| `WindowRuns.TablePopIsRightIff` | include/vm/mem_catalog.h:371-506 | after any excluding run whose pops, if any, are `HistoryWindow`'s, the first pop as `CurrentHistoryWindow` does it leaves the next push with the right window if and only if the frame shows no row behind the new one: not the popped row, at a later key, and no older row, at the same key |
| `WindowRuns.TablePopLosesARow` | include/vm/mem_catalog.h:492-506 | an excluding run of two pushes after which that pop makes the next window wrong |
| `HistoryRuns.HistoryWindowIsRescan` | include/vm/mem_catalog.h:383-456 | for a frame that ends before the current row, after every run with nondecreasing keys, pops included, the buffer is exactly the surviving rows after the frame's end and the window is the rescan of all other survivors as of the last push that moved one |
| `HistoryRuns.RangeFrameNeverLosesARow` | include/vm/mem_catalog.h:383-456 | for a pure range frame, after every turn of such a run, no surviving row in the frame is missing, none after its end is visible, extra rows are all older than its start, and there are none when a row was moved |
| `HistoryRuns.NothingShownEarlyIffNoStartRow` | include/vm/mem_catalog.h:388-408 | a frame that ends before the current row never shows a row after its end, in any run, if and only if it asks for no preceding rows |
| `RowCountRuns.RowCountWindowIsRescan` | include/vm/mem_catalog.h:383-456 | for a frame with a row count that ends before the current row, after every run with nondecreasing keys, pops included: the window is the rescan of the first rows, as many as the count, which are shown at once, and of the later rows that the frame's end had reached at the last move; the buffer is exactly the later rows that it has not reached |
| `RowCountRuns.TightWindowIsPlain` | include/vm/mem_catalog.h:388-408 | with a size limit below the row count no row ever waits: the window goes through the states of a window that ends at the current row |
| `HistoryRuns.ZeroPopIsRightIff` | include/vm/mem_catalog.h:371-456 | a pop at key zero, where the frame's end is clamped onto the row, leaves the rescan of the survivors if and only if the frame had room for all of them and the popped row |
| `HistoryRuns.WindowsAgree` | include/vm/mem_catalog.h:383-506 | on a frame that ends at the current row both window classes go through the same states in every run of pushes and pops |
| `RequestUnion.PickIterator` | src/vm/runner.cc:3254-3268 | the loop finds the last valid iterator with the greatest key, or none |
| `RequestUnion.Pick` | src/vm/runner.cc:3254-3268 | the picked segment is nonempty and no other segment's head is newer; none is picked only when all are empty |
| `RequestUnion.MergeOrdered` | src/vm/runner.cc:2589-2616 | repeated picking from newest-first segments visits all rows newest first |
| `RequestUnion.MergeAfterSeek` | src/vm/runner.cc:2555-2573 | seeking in every segment and merging is merging everything and dropping the rows after the end |
| `RequestUnion.ScanSegments` | src/vm/runner.cc:2589-2616 | the loop over moving iterators collects exactly what a scan of the merged rows collects |
| `RequestUnion.RequestUnionWindow` | src/vm/runner.cc:2524-2621 | the window is the request row, if asked for, and then the scanned rows, for every request time and every frame |
| `RequestUnion.ScanTakes` | include/vm/mem_catalog.h:332-352 | row by row status decisions take a prefix whose length is given by row count, time range and size limit together |
| `RequestUnion.RequestTakes` | src/vm/runner.cc:2529-2616 | for every frame the request's rows are the newest stored rows up to the frame's end, as many as that length |
| `RequestUnion.RequestIsRescan` | src/vm/runner.cc:2524-2621 | for a frame that ends at the request or counts rows, the request and its rows are the rescan of the request and the stored rows up to the frame's end, without those of the same time when that is excluded, not zero and the frame's end |
| `RequestUnion.RequestWithoutOrder` | src/vm/runner.cc:2529-2548 | without an order column there is no start, end or limit: a frame of rows finds nothing, and any other all stored rows in order |
| `RequestUnion.OnlineIsOffline` | README.md:48-50 | whatever the batch window was fed, pops included, a request that finds the surviving rows and late rows at its own key in its segments gets exactly the batch window if and only if the late rows do not show: there are none, the frame ends before them, or the rows behind repeat them |
| `RequestUnion.OnlineIsOfflineExcluding` | README.md:48-50 | with the current time excluded, request and batch window agree at every positive key, late rows or not; at key zero, where the batch window shows the row twice, if and only if the second copy and the late rows show no difference |
| `RequestUnion.RequestFindsFrame` | src/vm/runner.cc:2524-2621 | for a range frame that ends before the request, the request finds exactly the stored rows between start and end, the newest of them as many as the size limit allows |
| `RequestUnion.RequestIsRangeRescan` | src/vm/runner.cc:2524-2621 | that is the rescan of the stored rows up to the frame's end, for any size limit |
| `RequestUnion.OnlineIsOfflineUnlessStale` | README.md:48-50 | for such a frame with any size limit, after any run with pops, request and batch window agree if and only if no row within the limit lies between the frame's start at the last move and its start now; at key zero, if and only if the row, which only the batch window has there, and the late rows show no difference |
| `RequestUnion.StaleRowShown` | include/vm/mem_catalog.h:412-426 | a run of three pushes where the batch window shows a row that the request does not |
| `BatchOrder.PickMin` | src/vm/runner.cc:3241-3253 | the picked segment is nonempty, no head is older, and no earlier segment has a head as old |
| `BatchOrder.PickIteratorMin` | src/vm/runner.cc:3241-3253 | the loop finds that segment |
| `BatchOrder.FeedSplits` | src/vm/runner.cc:1411-1432 | the rows fed before an instance row are all before its key, what is left starts at the key or later, and the two together are the merge of the union segments |
| `BatchOrder.MergeWithInstance` | src/vm/runner.cc:1404-1448 | feeding the union rows strictly before each instance row, and then that row, is merging with the instance segment in first place |
| `BatchOrder.OrdersAgree` | src/vm/runner.cc:3241-3268 | the batch order of oldest-first segments, read backwards, is the online order of the same segments read backwards, ties included |
| `BatchRunner.WindowProject` | src/vm/runner.cc:856-896 | a row is pushed; for an instance row that is accepted the window is delivered and, if instance rows are left out, the row popped again; nothing is delivered for any other |
| `BatchRunner.FeedBefore` | src/vm/runner.cc:1411-1432 | the loop pushes exactly the rows to be fed, in order, and leaves the iterators behind them |
| `BatchRunner.RunWindowAggOnKey` | src/vm/runner.cc:1344-1450 | the outputs are, in order, what the window shows after the run of pushes and pops that leads to each instance row; all of them without a limit, otherwise as many as fill the output table, with its earlier rows, up to the limit |
| `BatchRunner.RunWindowAgg` | src/vm/runner.cc:1331-1340 | over all keys, which share one output table, a limited run delivers exactly the first rows of the unlimited run |
| `BatchRunner.EvaluatedUnlessOlder` | src/vm/runner.cc:864-867 | with rows in any order, an instance row gets the rescan of the accepted history, or no output exactly when it is older than the newest accepted row |
| `BatchRunner.PushesAreMerge` | src/vm/runner.cc:1404-1448 | all rows pushed so far, popped again or not, begin the merge of the instance segment and the union segments |
| `BatchRunner.RequestFindsKept` | src/vm/runner.cc:300-325 | up to the instance's key the stored segments hold, in the order of a request, the union rows at that key and then exactly the rows that survive in the batch window |
| `BatchRunner.BatchIsOnlineIff` | README.md:48-50 | for every instance row of every batch and a frame that ends at the current row: the row is evaluated, and on the request's window if and only if no union row stands at its key or those rows do not show |
| `BatchRunner.FirstAtKeyIsOnlineIff` | README.md:48-50 | for the first instance row at a key, and for all when instance rows are left out: if and only if no union row stands at the key or the frame shows the instance row only |
| `BatchRunner.ExcludingBatchIsOnlineIff` | README.md:48-50 | with the current time excluded: always at a positive key, and at key zero if and only if the second copy of the row and the union rows there show no difference |
| `BatchRunner.RangeBatchIsOnlineUnlessStale` | README.md:48-50 | for a range frame that ends before the current row: at a positive key if and only if the batch window holds no stale row, whatever union rows stand at the key; at key zero if and only if the row and the union rows there show no difference |
| `BatchRunner.LateRowShown` | src/vm/runner.cc:1411-1412 | one instance row, one union row at its key and a frame of two rows: the batch window is the instance row alone, and the request finds the union row |
| `Bytes.LERoundTrip` | include/codec/type_codec.h:233-287 | a number that fits n bytes is read back from its little-endian bytes |
| `Bytes.ByteWeight` | include/codec/type_codec.h:233-287 | the byte in place k has the weight 256^k |
| `Bytes.WithBitReads` | include/codec/type_codec.h:224-231 | setting or clearing a bit changes that bit and no other |
| `Bytes.BitWeight` | include/codec/type_codec.h:224-231 | bit k has the weight 2^k, and putting a bit back changes nothing |
| `RowLayout.OffsetAt` | src/codec/fe_row_codec.cc:71-88 | the offset vector gives each column its own field offset or string slot number |
| `RowLayout.PlacesDisjoint` | src/codec/fe_row_codec.cc:71-88 | fixed fields never overlap and end before the string slots; slot numbers of different strings differ |
| `RowLayout.WidthIsLeast` | include/codec/fe_row_codec.h:48-58 | the builder's slot width is the least that can express every offset into a row of the size |
| `RowLayout.WidthsAgree` | include/codec/type_codec.h:294-304 | the two derivations of the slot width agree on a size if and only if it is not 2^24, where they give four and three |
| `RowLayout.BuilderWidthIsRederived` | src/codec/fe_row_codec.cc:117-133 | the builder's total is exactly fixed part, bodies and one slot per string of the width later derived from that total |
| `RowLayout.BuilderTotalIsExactIff` | src/codec/fe_row_codec.cc:117-133 | the builder's total is exact if and only if fixed part, bodies and four bytes per string stay below 2^32; without columns it is zero |
| `RowLayout.BuilderTotalIsLeast` | src/codec/fe_row_codec.cc:117-133 | with any smaller slots the row would be too large for them |
| `RowLayout.NativeWidthIsRederived` | src/codec/type_codec.cc:36-60 | the generated code's total is exact for the width it returns, and that width is the one later derived from the total |
| `RowLayout.NativeTotalIsExactIff` | src/codec/type_codec.cc:36-60 | the generated code's total is exact under the same condition |
| `RowLayout.NativeTotalIsLeast` | src/codec/type_codec.cc:36-60 | with any smaller slots the row would be too large for them, where three bytes are taken to express 2^24 as well |
| `RowImage.DateRoundTrip` | include/codec/type_codec.h:157-182 | every valid date unpacks to the year, month and day that were packed |
| `RowImage.DatesCompare` | include/codec/type_codec.h:157-182 | packed dates compare like dates, from 1 for the first |
| `RowImage.FixedRoundTrip` | src/codec/fe_row_codec.cc:188-255 | the typed load of every fixed value's bytes gives the value back, for all eight types |
| `RowImage.SlotRoundTrip` | src/codec/fe_row_codec.cc:160-174 | a string offset that fits reads back from a slot of any width, three bytes being big-endian |
| `RowImage.ExampleRowEncodes` | src/codec/fe_row_codec.cc:71-300 | a row of six columns, one of them NULL, byte by byte |
| `RowWrites.PutHeaderHolds` | src/codec/fe_row_codec.cc:95-111 | after the header writes the buffer holds the row with no columns yet |
| `RowWrites.AppendedNull` | src/codec/fe_row_codec.cc:160-186 | marking NULL, and filling the slot of a NULL string, adds one NULL column and keeps every earlier column |
| `RowWrites.AppendedFixed` | src/codec/fe_row_codec.cc:188-255 | a typed store adds one column and keeps every earlier column |
| `RowWrites.AppendedString` | src/codec/fe_row_codec.cc:257-279 | a slot and a body add one string column and keep every earlier column |
| `RowBuilding.RowBuilder.constructor` | src/codec/fe_row_codec.cc:62-89 | the loop computes the layout |
| `RowBuilding.RowBuilder.SetBuffer` | src/codec/fe_row_codec.cc:95-111 | accepts iff the size is not zero and there is a byte per slot; then, if all slots really fit, the buffer holds an empty row; a refusal changes nothing |
| `RowBuilding.RowBuilder.CalTotalLength` | src/codec/fe_row_codec.cc:117-133 | the branches compute the total that `RowLayout.BuilderTotalIsExactIff` and `RowLayout.BuilderTotalIsLeast` are about |
| `RowBuilding.RowBuilder.AppendNULL` | src/codec/fe_row_codec.cc:176-186 | the row then holds one more column, NULL, beside all earlier ones |
| `RowBuilding.RowBuilder.AppendFixed` | src/codec/fe_row_codec.cc:188-255 | succeeds iff the next column has this type and a date is valid; then the row holds the value too; a failure changes no byte |
| `RowBuilding.RowBuilder.AppendString` | src/codec/fe_row_codec.cc:257-279 | succeeds iff the next column is a string and the body fits; then the row holds it too; a failure changes no byte |
| `RowBuilding.AppendValue` | src/codec/fe_row_codec.cc:176-279 | the append call for a value that fits always succeeds |
| `RowBuilding.StoreSlot` | src/codec/fe_row_codec.cc:160-174 | the stores by width write exactly the slot and nothing else |
| `RowBuilding.EncodeRow` | src/codec/fe_row_codec.cc:62-279 | for every schema and values, a buffer of the computed length takes every append and ends as a finished row, filled to its last byte |
| `RowReading.NextSlotIsNextString` | src/codec/fe_row_codec.cc:854-878 | the slot after a string's own is that of the next string column, where the body ends |
| `RowReading.ColumnReadsBack` | src/codec/type_codec.cc:78-185 | at any slot width that fits, every value, NULL flag and string of a finished row reads back |
| `RowReading.RowReadsBack` | src/codec/fe_row_codec.cc:386-596 | with the width derived from the size, every column of every encoded row reads back |
| `RowReading.EncodingIsInjective` | src/codec/fe_row_codec.cc:62-279 | a row of bytes encodes at most one list of values |
| `RowViewing.RowView.constructor` | src/codec/fe_row_codec.cc:328-351 | the view is valid iff every type is supported, and then has the builder's layout |
| `RowViewing.RowView.Reset` | src/codec/fe_row_codec.cc:353-364 | accepts iff the size exceeds the header and equals the stored size, and derives the slot width from it; otherwise only invalidates the view |
| `RowViewing.RowView.GetFixed` | src/codec/fe_row_codec.cc:458-596 | fails iff the view, index or type is wrong; otherwise reads the column at its place |
| `RowViewing.RowView.GetString` | src/codec/fe_row_codec.cc:854-878 | fails on a wrong view, index or type and on a stored size that is no more than the header; otherwise reads the string, its end found by the next slot or the stored size |
| `RowViewing.RowView.ReadsEncodedRow` | src/codec/fe_row_codec.cc:328-596 | a view set on an encoded row returns every value and NULL |
| `RowViewing.RowFormat.constructor` | src/codec/fe_row_codec.cc:880-918 | column infos and string start by the same layout; the reverse pass maps slot k to k + 1, and the last to zero |
| `RowViewing.FormatAgreesWithView` | src/codec/fe_row_codec.cc:880-918 | the format gives every column of a supported schema the offset that the row view uses |
| `RowSelecting.SelectedAt` | src/codec/fe_row_selector.cc:26-37 | if every index names a column, position j of the selection is the column that index j names, with repeats and permutations |
| `RowSelecting.SelectionReadsSource` | src/codec/fe_row_selector.cc:68-164 | reading column j of a selection equals reading the source column that index j names, NULLs included |
| `RowSelecting.OverloadsAgree` | src/codec/fe_row_selector.cc:68-257 | on rows of one slice the outputs of the two overloads read alike in every column |
| `RowSelecting.RowSelector.constructor` | src/codec/fe_row_selector.cc:26-66 | target schema, one view per slice, and a builder for the target |
| `RowSelecting.RowSelector.StringSize` | src/codec/fe_row_selector.cc:77-93 | fails iff an index names no slice; otherwise adds up exactly the lengths of the selected strings |
| `RowSelecting.RowSelector.Emit` | src/codec/fe_row_selector.cc:94-163 | the buffer sized from that sum takes every append and encodes the selected values |
| `RowSelecting.RowSelector.Select` | src/codec/fe_row_selector.cc:68-164 | on valid rows, in any sequence of calls on one selector: fails iff the slice count or an index is wrong, otherwise the output encodes the selected values |
| `RowSelecting.RowSelector.SelectSlice` | src/codec/fe_row_selector.cc:166-257 | the same for a single slice, with every index required to name it |
| `NativeEncoding.AppendString` | src/codec/type_codec.cc:187-255 | a NULL marks its bit, fills a slot of the width derived from the buffer size and keeps the body offset; a string writes slot and body and advances it, or reports -1 |
| `NativeEncoding.AppendHeader` | src/codegen/buf_ir_builder.cc:469-503 | writes versions, size and a cleared bitmap, and nothing else |
| `NativeEncoding.AppendPrimary` | src/codegen/buf_ir_builder.cc:452-467 | sets or clears the null bit only if the output is nullable, then stores the value |
| `NativeEncoding.Layout` | src/codegen/buf_ir_builder.cc:208-239 | the encoder's own loop computes the row view's layout |
| `NativeEncoding.CalcTotalSize` | src/codegen/buf_ir_builder.cc:505-557 | the emitted sum counts NULL strings as empty; without string columns the size is the fixed part |
| `NativeEncoding.RowSizeIsExact` | src/codegen/buf_ir_builder.cc:505-557 | the size is exactly where the last body ends, at the width that generated code derives from it |
| `NativeEncoding.EncodeColumn` | src/codegen/buf_ir_builder.cc:270-381 | each column's code makes exactly the stores of that column and chains the body offset, which is computed at the first string |
| `NativeEncoding.EncodeString` | src/codec/type_codec.cc:187-255 | the call for a string never reports failure and makes exactly the stores of its slot, body or null bit |
| `NativeEncoding.EmitFinishes` | src/codegen/buf_ir_builder.cc:248-381 | those stores, column after column, put every value in place whenever NULL strings take the common slot width |
| `NativeEncoding.BuildEncode` | src/codegen/buf_ir_builder.cc:248-381 | the whole program leaves exactly the emitted row on the memory it was given; unless that has 2^24 bytes and a NULL string, it is a finished row whose bodies end at the computed total |
| `NativeEncoding.NativeRowIsEncoded` | include/codec/type_codec.h:294-304 | the emitted row has the slot width that the row view derives if and only if its size is not 2^24 or it has no strings |
| `NativeEncoding.NativeRowReadsBack` | src/codec/type_codec.cc:78-185 | at every other size the generated decoder reads back every column |
| `RowViewException.StringReadsIff` | src/codec/type_codec.cc:78-185 | on any bytes and at any slot width, a string is read as s if and only if the words for its start and its end enclose as many bytes and these spell s |
| `RowViewException.WordsDecide` | src/codec/fe_row_codec.cc:854-878 | the row view reads a whole row of 2^24 bytes without NULL strings right if and only if the four bytes where it looks for each string spell its start |
| `RowViewException.RowViewAtTheException` | include/codec/fe_row_codec.h:48-58 | that is so if and only if there is no string, or one to three strings whose starts and first body bytes satisfy the stated equations; never for four or more strings |
| `RowViewException.OneStringAtTheException` | include/codec/fe_row_codec.h:48-58 | a single string reads back if and only if the high and low byte of its start are equal and its first byte is zero |
| `RowViewException.RowViewReadsNativeRow` | src/codec/fe_row_codec.cc:328-596 | an emitted row without NULL strings is read right by the row view if and only if its size is not 2^24 or it is one of those rows |
| `NativeException.SlotsFollow` | src/codec/type_codec.cc:210-255 | at 2^24 bytes the three-byte slot of a string always holds its start, and that of a NULL holds only what the four-byte stores of NULLs left there |
| `NativeException.BodiesFollow` | src/codec/type_codec.cc:210-255 | a body holds the string with the four-byte stores of later NULLs laid over it |
| `NativeException.NativeRowAtTheException` | src/codec/type_codec.cc:78-255 | the generated decoder reads back a whole row of 2^24 bytes, NULL strings or not, if and only if its last string is not empty and not NULL, every body survives the NULLs after it, and a NULL that follows a string has its start spelled by the stores of NULLs |
| `NativeException.BodySurvivesIff` | src/codec/type_codec.cc:210-216 | a body survives if and only if every byte of a later NULL that falls into it equals the byte that was there |
| `NativeException.SlotSurvivesIff` | src/codec/type_codec.cc:210-216 | the slot of a NULL string spells its start if and only if that fits three bytes and, at each of them, the NULL that stores there stores the right byte or, where none does, the memory given holds it |
| `NativeException.NullDamagesTheBody` | src/codec/type_codec.cc:210-216 | for a string followed by a NULL: two body bytes are overwritten, a byte of the second slot is never written, and the string is misread |
| `NativeException.RowViewWithNulls` | src/codec/fe_row_codec.cc:854-878 | the row view on the same rows: fixed columns and NULLs read back, a string if and only if the four-byte words in the emitted row enclose and spell it |
| `AggSchedule.Register` | src/codegen/aggregate_ir_builder.cc:559-577 | every request lands under its function, in order; fails iff a function is unknown |
| `AggSchedule.RegisteredOnce` | src/codegen/aggregate_ir_builder.cc:559-577 | an output index is registered under a function exactly as often as it was requested |
| `AggSchedule.MakeGenerator` | src/codegen/aggregate_ir_builder.cc:554-580 | one registration per column; fails iff some column has an unknown function |
| `AggSchedule.Schedule` | src/codegen/aggregate_ir_builder.cc:527-590 | the generators' columns, in order, are the sorted columns; each generator has one to four adjacent columns of one type, no run is cut short, and it fails iff a function is unknown |
| `AggSchedule.RunIsContiguous` | src/codegen/aggregate_ir_builder.cc:535-551 | column i of a generator has its type and starts i fields after the first |
| `AggSchedule.AdjacentIffNeighbours` | src/codegen/aggregate_ir_builder.cc:497-551 | in the layout of any row, two numeric columns can share a generator if and only if they have one type and no fixed field lies between them |
| `AggSchedule.SortByOffset` | src/codegen/aggregate_ir_builder.cc:517-525 | the keys sorted by offset, none lost |
| `AggSchedule.ScheduleAggGenerators` | src/codegen/aggregate_ir_builder.cc:514-591 | whatever order the map gives, every column ends up in exactly one generator |
| `AggProgram.UpdateStates` | src/codegen/aggregate_ir_builder.cc:272-337 | the guarded updates change exactly the accumulators that exist, and a NULL changes none |
| `AggProgram.IntegerLimits` | src/codegen/aggregate_ir_builder.cc:186-235 | the initial minimum and maximum of an integer column are the limits of two's complement numbers of the column's width |
| `AggProgram.FloatLimits` | src/codegen/aggregate_ir_builder.cc:186-235 | those of a floating-point column are the largest finite number and its negative |
| `AggProgram.WrapIsTwosComplement` | src/codegen/aggregate_ir_builder.cc:272-283 | a sum that fits the column's type is kept; any other is moved into its range by a multiple of its size |
| `AggProgram.StatisticalAggGenerator.GenInitState` | src/codegen/aggregate_ir_builder.cc:237-270 | accumulators for what each column is asked, minima at the type's maximum and maxima at its lowest, one shared count if any column needs it |
| `AggProgram.StatisticalAggGenerator.GenUpdate` | src/codegen/aggregate_ir_builder.cc:339-364 | every column updates its own accumulators; the count follows the first column that needs it and no other |
| `AggProgram.StatisticalAggGenerator.GenOutputs` | src/codegen/aggregate_ir_builder.cc:366-421 | the outputs of all columns in order |
| `AggProgram.RunWindow` | src/codegen/aggregate_ir_builder.cc:237-421 | after all rows, accumulators and count are those of the rows |
| `AggProgram.SumIsFold` | src/codegen/aggregate_ir_builder.cc:272-337 | a sum is the sum of the non-NULL cells in the column type's wrap-around; an average's sum is exact |
| `AggProgram.SumIsAdditive` | src/codegen/aggregate_ir_builder.cc:272-283 | the sum over two parts of a window is the sum of their sums |
| `AggProgram.SumOfOne` | src/codegen/aggregate_ir_builder.cc:272-283 | the sum of one cell is its number, and zero for a NULL |
| `AggProgram.CountIsNumberOfNumbers` | src/codegen/aggregate_ir_builder.cc:339-364 | a column's count is the number of its cells that are not NULL |
| `AggProgram.ExtremesAreFolds` | src/codegen/aggregate_ir_builder.cc:272-337 | the min and max accumulators are the folds over the non-NULL cells |
| `AggProgram.LeastIsLeast` | src/codegen/aggregate_ir_builder.cc:272-337 | the minimum is a non-NULL cell below all others, or the type's maximum when there is none |
| `AggProgram.GreatestIsGreatest` | src/codegen/aggregate_ir_builder.cc:272-337 | the maximum is a non-NULL cell above all others, or the type's lowest number when there is none |
| `AggProgram.AggregatesAreFolds` | src/codegen/aggregate_ir_builder.cc:237-421 | for every window the outputs are exactly the folds over the columns at the requested indices, in order and nothing else, with the count of the leading column as count, divisor and empty flag |
| `AggProgram.AnswersAreTrue` | src/codegen/aggregate_ir_builder.cc:366-421 | with the column's own count, every output is what was asked for at its index: a minimum is a cell below all others, a maximum one above, each flagged exactly when there is no number |
| `AggProgram.EveryRequestOnce` | src/codegen/aggregate_ir_builder.cc:366-577 | the output indices of a scheduled generator are, as a multiset, those that its columns' requests name |
| `AggProgram.SharedCountIsRight` | src/codegen/aggregate_ir_builder.cc:339-364 | the shared count is a column's own count after every row if and only if the column is NULL in the same rows as the leader |
| `AggProgram.OutputsAreRightIff` | src/codegen/aggregate_ir_builder.cc:237-421 | the outputs are exactly the folds with each column's own count if and only if, for every column, the leader's count is equal where a count or an average is asked for, and zero exactly when the column's is where a minimum or maximum is |
| `AggProgram.AggregatesAreRight` | src/codegen/aggregate_ir_builder.cc:237-421 | so the outputs are right if every column that needs a count is NULL in the same rows as the leader |
| `AggProgram.RightWithOtherNulls` | src/codegen/aggregate_ir_builder.cc:339-364 | a window where two columns are never NULL together and the outputs are right all the same |
| `AggProgram.SharedCountGoesWrong` | src/codegen/aggregate_ir_builder.cc:339-364 | a window where the emitted count of a column with one number is zero |
| `RowConcat.Concat` | src/codec/row.cc:31-45 | the result has the declared number of slices: slice i of the major row in place i, and slice i of the secondary row i places after the major row's share, empty where missing |
| `RowConcat.JoinedIsAssociative` | src/codec/row.cc:31-45 | concatenation is associative whatever slice counts are declared |
| `RowConcat.ZipJoinsEqualRanks` | include/vm/mem_catalog.h:674-703 | row k of the padded zip has the key and first slices of left row k, and then the slices of right row k, or empty ones when there is none |
| `RowConcat.ConcatTableHandler.Sync` | include/vm/mem_catalog.h:674-703 | the loop builds the padded zip, as long as the left table |
| `RowConcat.ConcatTableHandler.At` | include/vm/mem_catalog.h:647-653 | the zip's row at that rank, or an empty row, whichever call came first |
| `RowConcat.ConcatTableHandler.GetCount` | include/vm/mem_catalog.h:666-671 | the zip's length, whichever call came first |
| `RowConcat.ConcatTableHandler.GetIterator` | include/vm/mem_catalog.h:654-659 | walks the zip, whichever call came first |
| `SchemaCodec.GetSize` | include/codec/fe_schema_codec.h:113-120 | header, and three bytes and a name per column |
| `SchemaCodec.ImageSize` | include/codec/fe_schema_codec.h:113-120 | that size is exactly the number of bytes written |
| `SchemaCodec.Encode` | include/codec/fe_schema_codec.h:36-67 | fails iff the size exceeds the limit, leaving the buffer alone, or a name is too long, leaving it resized and written up to that column's type; otherwise writes exactly the encoding; an empty schema leaves the buffer alone |
| `SchemaCodec.WriteColumns` | include/codec/fe_schema_codec.h:44-65 | the stores into the resized buffer, up to the first name that is too long |
| `SchemaCodec.Decode` | include/codec/fe_schema_codec.h:69-110 | on every input, malformed ones included, the columns up to the first invalid type or short column, added to the given schema |
| `SchemaCodec.DecodesIff` | include/codec/fe_schema_codec.h:75-110 | decoding succeeds if and only if the bytes are whole columns of valid types followed by fewer than three bytes, and then delivers exactly those columns |
| `SchemaCodec.ExampleImage` | include/codec/fe_schema_codec.h:36-67 | a schema of one column, byte by byte |
| `SchemaCodec.SchemaRoundTrip` | include/codec/fe_schema_codec.h:36-110 | decoding the encoding gives back every name, type and flag in order, however the 16-bit count wrapped |
| `SchemaCodec.ImageIsInjective` | include/codec/fe_schema_codec.h:36-110 | different schemas have different bytes |
| `RefCounting.SliceHeap.Create` | include/base/fe_slice.h:135-143 | an unmanaged handle changes no count |
| `RefCounting.SliceHeap.CreateManaged` | include/base/fe_slice.h:130-133 | a new counter at one for a buffer that was not managed |
| `RefCounting.SliceHeap.Release` | src/base/fe_slice.cc:24-33 | counts are right without the handle, and its buffer is freed iff it was the last |
| `RefCounting.SliceHeap.Update` | src/base/fe_slice.cc:35-41 | the handle takes over the other's buffer and counts are right with it |
| `RefCounting.SliceHeap.Destroy` | src/base/fe_slice.cc:22 | frees the buffer exactly when its last handle goes |
| `RefCounting.SliceHeap.Copy` | src/base/fe_slice.cc:43-49 | a copy, or a move, frees nothing and keeps every count right |
| `RefCounting.SliceHeap.Assign` | src/base/fe_slice.cc:51-67 | assignment frees the old buffer iff this was its last handle and it is not assigned to itself |
| `RefCounting.SliceHeap.SharedBufferSurvives` | src/base/fe_slice.cc:51-67 | in every reachable state, releasing before taking over is safe when both handles share a buffer |
| `RefCounting.SliceHeap.NoUseAfterFreeNoLeak` | src/base/fe_slice.cc:22-67 | in every reachable state no handle manages a freed buffer, and once no managed handle is left every managed buffer has been freed |
| `MemPool.MemoryChunk.Alloc` | include/base/mem_pool.h:43-50 | serves iff the request fits, from the end of the allocated part; a failure changes nothing |
| `MemPool.ByteMemoryPool.constructor` | include/base/mem_pool.h:63-69 | a pool with one chunk that has room for the size asked for, nothing handed out and nothing deleted |
| `MemPool.ByteMemoryPool.ExpandStorage` | include/base/mem_pool.h:92-94 | a new chunk with room for the request in front of the list, which stays as it was |
| `MemPool.ByteMemoryPool.Alloc` | include/base/mem_pool.h:75-80 | every request is served inside one chunk, apart from every region handed out since the last reset; a chunk is added exactly when the first one has no room |
| `MemPool.ByteMemoryPool.Reset` | include/base/mem_pool.h:84-91 | the loop deletes every chunk of the list, in order and exactly once, and none that was deleted before |
| `Lehmer.FoldedProduct` | src/base/fe_random.h:34-44 | the shift-and-add reduction with one conditional subtraction is the product modulo M |
| `Lehmer.StepStaysInRange` | src/base/fe_random.h:25-45 | a number from 1 to M - 1 is followed by one |
| `Lehmer.StepIsInjective` | src/base/fe_random.h:25-45 | different numbers have different successors |
| `Lehmer.Random.constructor` | src/base/fe_random.h:19-24 | the seed is in range for every argument |
| `Lehmer.Random.Next` | src/base/fe_random.h:25-45 | the next number is seed * 16807 mod M, and the seed stays in range |
| `LehmerPeriod.ReachesEveryNumber` | src/base/fe_random.h:31-33 | from any seed every number from 1 to M - 1 comes up within M - 1 calls |
| `LehmerPeriod.PeriodIsExact` | src/base/fe_random.h:31-33 | the generator comes back to a seed after exactly M - 1 calls and not before |

## Left out

- WindowRuns.ExcludingWindowIsRescan: no popped row at key zero; `WindowRuns.ZeroPopIsRightIff` says what such a pop costs.
- HistoryRuns.HistoryWindowIsRescan: no popped row at key zero (`HistoryRuns.ZeroPopIsRightIff`), and frames without a row count; those with one are in `RowCountRuns`.
- RowCountRuns.RowCountWindowIsRescan: no popped row at key zero, and no range frame with a row count, which no SQL frame gives.
- RequestUnion.OnlineIsOfflineUnlessStale: range frames; with a row count and an end before the current row the batch side shows the first rows at once (`HistoryRuns.NothingShownEarlyIffNoStartRow`), so that the two sides have no common frame.
- RequestUnion.OnlineIsOffline: which rows are stored when a request comes is an assumption here; `BatchRunner.RequestFindsKept` proves it for segments that hold the instance rows before the request and all union rows.
- BatchRunner.ExcludingBatchIsOnlineIff: no instance row popped at key zero (`WindowRuns.ZeroPopIsRightIff`).
- BatchRunner.RangeBatchIsOnlineUnlessStale: range frames with no row count, and no instance row popped at key zero (`HistoryRuns.ZeroPopIsRightIff`).
- BatchRunner.WindowProject: rows are not empty and the generated function does not fail; what it computes is the output window itself. Joins of union and instance rows are left out.
- WindowRuns.TablePopIsRightIff: the first such pop of a run; after it the window is no longer a rescan.
- RowBuilding.RowBuilder.AppendString: the offset plus the length is compared without the 32-bit wrap-around of the source, which a string that passes the 4 GiB mark would bring about.
- NativeException.RowViewWithNulls: the condition is on the words of the emitted row, not on the values.
- NativeEncoding.BuildEncode: every NULL string's slot must end inside the row, as the source writes outside it otherwise; this excludes only some rows of exactly 2^24 bytes. Every column has an output, no partial output map.
- RowViewException.RowViewAtTheException: rows with room for four-byte slots, as the row view reads outside the row otherwise.
- RowViewing.RowView.GetFixed: only for rows long enough for their slots; reads outside malformed rows are undefined in the source. The date getter is the one with year, month and day.
- RowSelecting.RowSelector.Select: only on rows that encode values of the slices' schemas and without 32-bit overflow of the target's size.
- SchemaCodec.GetSize: no 32-bit wrap-around, which takes names of more than 4 GiB in all.
- AggSchedule.SortByOffset: an insertion sort stands for the library sort, so the order of columns with equal offsets is one of the possible ones.
- AggProgram.SumIsFold: no rounding of floating-point sums; averages are kept as a pair of sum and count.
- RowConcat.Concat: at least one slice on each side; the constructor from a slice and a row is not modelled.
- Keys of 2^63 and above, positive offsets, and the default-constructed frame of a window without a range.
- The Spark row format behind the global flag.
- Merging of frames and windows in plans, plan passes, schema resolution, joins inside windows, the LRU cache.
- The blocks, types and casts of the code generator; only the effect of the emitted operations is modelled.
- The other getters of rows (as strings, as any integer), column lists over rows, comparison and hashing of rows and slices.
- `Row::Reset` on a managed slice, the spin lock, storage interfaces, SDK, command line and benchmarks.
