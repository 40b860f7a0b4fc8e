# Day windows and cell visits of a location-history pipeline

This project models the aggregation core of a program that reads a location history. The
history is a stream of records, each with an E7 latitude and longitude, an accuracy and a
timestamp. The main chain does the following, in order:

1. It keeps only well-formed records with accuracy below 50.
2. It projects each kept record to a `[lat, lng, time]` sample.
3. It groups the samples into day windows in a stateful `bufferize` stage. The stage's
   accumulator is a `TimeSpanStatItem`: previous window, current window, sample count, and the
   set of visited cells.
4. It pushes one day-boundary event for every accumulator that stage emits.
5. It folds the emitted cell sets into a global `cell -> visits` map. Each window adds one per
   cell it visited.
6. It prints the map sorted ascending by count.

A second chain counts the day-boundary events with a running total that is never reset.

Modules: `Entities` holds the record and sample shapes. `Filters` holds the window mapping, the
three filters and the cell key. `Windows` holds the accumulator class, its reducer and flush
predicate, and the stage's fold/flush loop. `WindowRuns` holds what the window stage does to a
whole stream. `Visits` holds the cell-count map and its stage. `Days` holds the day counter.
`Report` holds the sorted report. `Pipeline` holds the filters composed and the two chains.

Three collaborators are parameters:

- `getTime` stands for `new Date(timestamp).getTime()`.
- `encode` stands for the plus-codes encoder. It may return nothing, which is fatal.
- `flushAtEnd` says whether the stream library's `bufferize` emits, at end of stream, an
  accumulator that has taken at least one element since its last flush.

JavaScript numbers are `Num = Int(i) | NaN`. NaN matters here: `getTime` yields it for a
timestamp that does not parse, and `typeof NaN === 'number'`.

## Behaviour of the code worth knowing

- The reducer runs before `shouldFlush`. So the accumulator that is flushed already holds the
  first sample of the new day, and the stage restarts from the sentinel 0. The sample right
  after a flush never flushes (`Windows.NoFlushRightAfterFlush`).
  - Samples in windows 5, 5, 7 give one emitted accumulator and one day line
    (`WindowRuns.DaysFiveFiveSeven`).
  - An accumulator flushed mid-stream always holds at least two samples
    (`WindowRuns.FoldAccounts`). The one the end-of-stream flush adds may hold a single sample.
  - Accumulators flushed mid-stream close strictly increasing windows. The one the end-of-stream
    flush adds may close the same window as the one before it
    (`WindowRuns.ChronologicalEmissions`). Windows 5, 5, 7, 7 give two accumulators, both ending
    in window 7 (`WindowRuns.DaysFiveFiveSevenSeven`).
- A cell's count in the visit map is the number of emitted accumulators that hold it. This is
  not always the number of distinct days on which the cell was visited. Take windows 5, 5 on one
  cell and 7, 7 on another, with the end-of-stream flush. The day-7 cell is visited on one day
  only, yet both accumulators hold it, so it gets the count 2 (`Visits.SameDayCountedTwice`).
- `isValidLocationWithTime` checks only `typeof`. A record whose timestamp does not parse still
  reaches the window stage with a NaN time (`Filters.UnparsableTimestampKept`). NaN differs from
  every number, so that sample flushes the stage by itself whenever the pending window is not
  the sentinel 0 (`Windows.NaNTimeFlushesUnlessSentinel`). When the pending window is the
  sentinel, it does not flush, and the sample after it always flushes
  (`Windows.NaNTimeFlushesNext`).
- The day chain prints a running total per event. An empty stream prints no day line at all
  (`Pipeline.EmptyStreamEmitsNothing`).
- Window 0 (the first day after the epoch) is also the "nothing seen yet" sentinel. A sample in
  it cannot close a window on the next step (`Windows.EpochWindowIsSentinel`).
- `timeToTimeSpan` divides in double precision, and the model computes the exact integer floor.
  The two agree for every time a `Date` can hold. The limit |t| <= 8.64e15 ms keeps the quotient
  below 2^27. There, half a unit in the last place is at most 2^-27 (about 7.5e-9). A quotient
  that is not an integer lies at least 1/86400000 (about 1.16e-8) from the next integer, so
  rounding never reaches it.

## Model

| member | source | states |
|---|---|---|
| `Entities.ParseLocation` | entities.ts:55-58 | copies the two coordinates; the time component is always a number (NaN for a bad date) |
| `Filters.TimeToTimeSpan` | process.ts:36-38 | the window of an integral time `t` is the `q` with `q*86400000 <= t < (q+1)*86400000` (floor division); NaN maps to NaN |
| `Filters.TimeSpanUnique` | process.ts:9 | the window is the unique `k` whose day `[k*D, (k+1)*D)` contains the time |
| `Filters.TimeSpanMonotone` | process.ts:36-38 | a later time never falls in an earlier window |
| `Filters.SameTimeSpan` | process.ts:36-38 | two times share a window iff both lie in the same day `[k*D, (k+1)*D)` |
| `Filters.IsAccuracyGood` | process.ts:62-64 | a record passes only with an integral accuracy below 50; a NaN accuracy fails |
| `Filters.IsValidLocationWithTime` | process.ts:52-60 | the guard requires numeric coordinates and lets a NaN time through |
| `Filters.IsValidActivityRecord` | process.ts:40-50 | only an object with the five required keys is valid; value types are not checked |
| `Filters.ValidityIgnoresValues` | process.ts:40-50 | changing the value of a present key never changes validity |
| `Filters.MissingKeyInvalid` | process.ts:44-48 | a record missing any one of the five keys is invalid |
| `Filters.FiveKeysValid` | process.ts:40-50 | an object holding the five keys is valid, whatever their values |
| `Filters.AccuracyThreshold` | process.ts:62-64 | a numeric accuracy passes iff it is strictly below 50; exactly 50 is dropped |
| `Filters.UnparsableTimestampKept` | process.ts:52-60 | after `parseLocation`, the type guard holds iff both coordinates are numbers; a NaN time passes |
| `Filters.LatLngToSquareKey` | process.ts:32-34 | the key is the encoder's cell; it is the fatal error exactly when the encoder returns nothing |
| `Windows.Initial` | process.ts:75-80 | the initial value has no sample and no cell, and the first sample reduced into it never triggers a flush |
| `Windows.Stat.Reduce` | process.ts:81-87 | the current window shifts into the previous one; size grows by exactly 1; the cell joins the set, which grows by at most that cell |
| `Windows.Stat.ShouldFlush` | process.ts:88-90 | flushes iff the previous window is not the sentinel 0 and differs from the current one under `!==`: a NaN previous window always flushes, an unchanged integral window never does |
| `Windows.Step` | process.ts:74-91 | one sample fails the stage iff its cell cannot be encoded; otherwise at most one accumulator is emitted, earlier ones are kept, and after a flush the stage restarts from the initial value |
| `Windows.Fold` | process.ts:74-91 | a stream never yields more flushes than samples |
| `Windows.Finish` | process.ts:74-91 | the end of stream adds at most one accumulator after the flushed ones, only with the end flush and only one that took a sample |
| `Windows.Emitted` | process.ts:74-91 | the stage's output succeeds iff the fold does; it is the mid-stream flushes followed by at most one more accumulator |
| `Windows.TimeSpanStatItem.constructor` | process.ts:75-80 | a fresh accumulator has both window keys at 0, size 0 and no cell |
| `Windows.TimeSpanStatItem.Reduce` | process.ts:81-87 | the old window becomes the previous one; the sample's window becomes current; size grows by exactly 1; the cell joins the set; nothing else changes; encoder failure is reported |
| `Windows.WindowStage` | process.ts:74-91 | the mutable fold/flush loop emits exactly what the stage's specification `Emitted` gives, including failure on the first unencodable sample |
| `Windows.FirstSampleStartsCount` | process.ts:75-84 | from the initial value, the first sample leaves exactly one sample pending |
| `Windows.WindowChangeFlushes` | process.ts:81-90 | a sample in another window than the pending non-sentinel integral window emits exactly one accumulator |
| `Windows.RevisitKeepsSquares` | process.ts:85 | a second sample on a cell already visited leaves the visited set, and its size, unchanged |
| `Windows.FlushHoldsTrigger` | process.ts:81-90 | a flush emits an accumulator ending in the trigger's window that holds the trigger's cell; its previous window was not the sentinel; the stage resets to the initial value |
| `Windows.NoFlushRightAfterFlush` | process.ts:75-90 | the step right after a flush never flushes |
| `Windows.EpochWindowIsSentinel` | process.ts:88-90 | after a sample in window 0, the next sample cannot flush |
| `Windows.NaNTimeFlushesUnlessSentinel` | process.ts:81-90 | a NaN-time sample flushes the stage iff the pending window is not the sentinel 0 |
| `Windows.NaNTimeFlushesNext` | process.ts:81-90 | when a NaN-time sample did not flush, the sample after it always flushes |
| `WindowRuns.FoldAccounts` | process.ts:74-91 | over a stream, every sample is counted in exactly one accumulator; cells are exactly the samples' cells; each accumulator flushed mid-stream has at least 2 samples; flushes are at most half the samples |
| `WindowRuns.StepAccounts` | process.ts:81-90 | one step keeps every sample counted once and every cell kept |
| `WindowRuns.EmittedCoversStream` | process.ts:74-91 | with the end-of-stream flush, the emitted accumulators' sizes sum to the number of samples and their cells are the samples' cells |
| `WindowRuns.FoldFailsIff` | process.ts:33 | the stage fails iff some sample's cell cannot be encoded |
| `WindowRuns.ChronologicalFlushes` | process.ts:81-90 | for samples in time order, the accumulators flushed mid-stream close strictly increasing window keys, each ending in a later window than its previous sample's |
| `WindowRuns.ChronologicalEmissions` | process.ts:74-91 | for samples in time order, all emitted accumulators close non-decreasing window keys, strictly increasing among the mid-stream flushes; at most one more follows them |
| `WindowRuns.DaysFiveFiveSeven` | process.ts:81-90 | windows 5, 5, 7 give one accumulator of 3 samples, closing 5 -> 7 and holding all three cells, with or without the end flush |
| `WindowRuns.DaysFiveFiveSevenSeven` | process.ts:81-90 | windows 5, 5 on one cell then 7, 7 on another, with the end flush, give two accumulators that both close window 7 and both hold the day-7 cell |
| `Visits.Merge` | process.ts:97-102 | each cell of the window gets exactly one more visit (from 0 when absent); other counts are unchanged; the key set only grows |
| `Visits.VisitCounts.constructor` | process.ts:96 | the map starts empty |
| `Visits.VisitCounts.Reduce` | process.ts:97-102 | the in-place loop over the set leaves the map equal to `Merge` of the old map and the set |
| `Visits.CountVisits` | process.ts:95-103 | every cell in the map was counted at least once and at most once per accumulator |
| `Visits.CountIsWindowsVisited` | process.ts:95-103 | a cell's final count equals the number of accumulators that hold it; it is a key iff some accumulator does |
| `Visits.CountVisitsKeys` | process.ts:95-103 | the map's keys are exactly the cells held by the windows |
| `Visits.CountVisitsGrows` | process.ts:98-100 | as windows arrive no key disappears and no count decreases |
| `Visits.SameDayCountedTwice` | process.ts:74-103 | with windows 5, 5 on cell y and 7, 7 on cell x and the end flush, x (visited in window 7 only) gets the count 2 and y the count 1 |
| `Visits.CellCountStage` | process.ts:95-103 | the stage emits the map of all windows once, at end of stream, and only if at least one window came in |
| `Days.DayReduce` | process.ts:120 | each event strictly raises the running total |
| `Days.DayShouldFlush` | process.ts:121 | every event is reported, whatever the total |
| `Days.DayNextInitialValue` | process.ts:119 | the total carries over a flush and is never reset |
| `Days.DayStage` | process.ts:116-122 | after k events the emitted totals are exactly 1, 2, ..., k, the last one k |
| `Report.Insert` | process.ts:109 | inserting adds exactly one line |
| `Report.InsertPermutes` | process.ts:109 | inserting adds exactly that entry and loses none |
| `Report.InsertKeepsOrder` | process.ts:109 | inserting into a count-sorted list keeps it sorted and adds exactly that entry |
| `Report.SortByCount` | process.ts:109 | the sort keeps the number of entries |
| `Report.SortByCountSorts` | process.ts:109 | the result is ascending by count and a permutation of the input entries |
| `Report.Entries` | process.ts:109 | the spread of `entries()` holds each map entry exactly once |
| `Report.SortedReport` | process.ts:107-113 | the report lines are ascending by count and are exactly the map's entries |
| `Report.ListsEachEntryOnce` | process.ts:108-113 | such a list has one line per key, with the key's count, and no key twice |
| `Pipeline.Admit` | process.ts:70-73 | a record survives the three filters and the projection iff it is valid, has accuracy < 50 and numeric coordinates |
| `Pipeline.Samples` | process.ts:70-73 | at most one sample per record reaches the window stage |
| `Pipeline.SamplesAppend` | process.ts:70-73 | the filter and map stages work record by record, preserving order |
| `Pipeline.DroppedRecordIgnored` | process.ts:70-71 | a record failing validity or accuracy, wherever it appears, changes nothing |
| `Pipeline.SamplesFromGoodRecords` | process.ts:70-73 | every sample reaching the windows comes from a valid, accurate record of the stream |
| `Pipeline.Process` | process.ts:66-127 | the run fails iff the window stage does; one day line per emitted window, numbered 1..n; a report only when the count stage emits, sorted and listing the final map's entries |
| `Pipeline.EmptyStreamEmitsNothing` | process.ts:116-125 | an empty stream emits no window, hence no cell line and no day line |
| `Pipeline.ReportedCellsAreSampleCells` | process.ts:95-114 | with the end flush, the map's keys are exactly the surviving samples' cells, each counted once per window visiting it |

## Left out

- `createObjectsStreamer` (process.ts:11-23): reading the file, JSON parsing of `locations.*` and the back-pressured `Transform` are I/O. The model starts from a sequence of decoded elements.
- The stream library (`chain`, `Fifo`, `bufferize`, `onEnd`, `consume`) is not part of this model.
  - Its fold/flush loop is written out per stage.
  - Whether it emits a trailing accumulator at end of stream is the `flushAtEnd` parameter.
  - A stage with no `shouldFlush` is taken never to flush mid-stream.
  - The hand-off queue is represented only by the number of events pushed, one per window emitted.
  - `onEnd` closing the queue is not modelled.
- The two chains run concurrently, and `Promise.all` waits for both. The model runs the stages one after another; the interleaving of printed lines is not modelled. Output printed before a fatal error is not modelled either: a failed run has no output.
- Pipeline.Process: the filter and map stages are one function over the whole sequence rather than a lazy pull per element.
- `latLngToSquareKey`: dividing by 1e7 in floating point and the plus-codes encoding at precision 8 are the opaque `encode` parameter.
- `parseLocation`: ISO-8601 date parsing is the opaque `getTime` parameter.
- Console formatting (`"<cell>: <count>"`, `"Processed <N> days"`) and `main().catch`: the model returns the entries and the totals instead of printing them.
- esbuild.config.js: build configuration.
- JavaScript numbers are modelled as integers or NaN. Fractions, infinities and -0 are not modelled.
- Filters.IsAccuracyGood: a non-numeric accuracy is treated as failing. JavaScript's `<` would coerce it: null counts as 0 and passes, and a numeric string is compared by its value.
- Report.SortedReport: a Dafny map has no insertion order. The relative order of entries with equal counts, which the stable sort takes from the `Map`'s insertion order, is left open. `Report.Insert` places an entry after those with an equal count, but stability is not proved.
