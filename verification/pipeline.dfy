/**
 * The two chains of `main`: the main chain (filters, projection, window stage, day-boundary
 * tap, cell-count stage, report) and the day-counting chain it feeds through the hand-off queue.
 */
module Pipeline {
  import opened Wrappers
  import opened Entities
  import opened Filters
  import opened Windows
  import opened WindowRuns
  import opened Visits
  import opened Days
  import opened Report

  /**
   * One record through `filter(isValidActivityRecord)`, `filter(isAccuracyGood)`,
   * `map(parseLocation)` and `filter(isValidLocationWithTime)`. A record survives exactly when it
   * is an object with the five keys, an accuracy below 50 and numeric coordinates; its time is
   * whatever the date parser gives, NaN included.
   */
  function Admit(record: Raw, getTime: DateParser): (s: Option<Sample>)
    ensures s.Some? <==>
              && IsValidActivityRecord(record) && IsAccuracyGood(record)
              && Field(record, "latitudeE7").Number? && Field(record, "longitudeE7").Number?
    ensures s.Some? ==>
              s.value == Sample(Field(record, "latitudeE7").n, Field(record, "longitudeE7").n,
                                getTime(Field(record, "timestamp")))
  {
    if IsValidActivityRecord(record) && IsAccuracyGood(record) then
      var loc := ParseLocation(record, getTime);
      if IsValidLocationWithTime(loc) then Some(Sample(loc.lat.n, loc.lng.n, loc.time.n)) else None
    else None
  }

  /** The samples reaching the window stage, in record order: at most one per record. */
  function Samples(records: seq<Raw>, getTime: DateParser): (samples: seq<Sample>)
    ensures |samples| <= |records|
  {
    if records == [] then []
    else
      Samples(records[..|records| - 1], getTime) +
        (match Admit(records[|records| - 1], getTime) case Some(s) => [s] case None => [])
  }

  /** The filter stages work record by record: a stream split in two is filtered piece by piece. */
  lemma {:induction false} SamplesAppend(a: seq<Raw>, b: seq<Raw>, getTime: DateParser)
    ensures Samples(a + b, getTime) == Samples(a, getTime) + Samples(b, getTime)
  {
    if b != [] {
      var last := b[|b| - 1];
      SamplesAppend(a, b[..|b| - 1], getTime);
      assert (a + b)[..|a + b| - 1] == a + b[..|b| - 1];
      assert (a + b)[|a + b| - 1] == last;
      var tail := match Admit(last, getTime) case Some(s) => [s] case None => [];
      assert Samples(a + b, getTime) == Samples(a + b[..|b| - 1], getTime) + tail;
      assert Samples(b, getTime) == Samples(b[..|b| - 1], getTime) + tail;
    } else {
      assert a + b == a;
    }
  }

  /** A record the filters drop leaves the whole run unchanged, wherever it stands in the stream. */
  lemma DroppedRecordIgnored(a: seq<Raw>, r: Raw, b: seq<Raw>, getTime: DateParser)
    requires !(IsValidActivityRecord(r) && IsAccuracyGood(r))
    ensures Samples(a + [r] + b, getTime) == Samples(a + b, getTime)
  {
    SamplesAppend(a + [r], b, getTime);
    SamplesAppend(a, [r], getTime);
    SamplesAppend(a, b, getTime);
    assert [r][..0] == [];
    assert Admit(r, getTime).None?;
    assert Samples([r], getTime) == [];
    assert Samples(a + [r], getTime) == Samples(a, getTime);
  }

  /**
   * Every sample of the run comes from a record in the stream that is a valid activity record
   * with good accuracy: dropped records never reach any window.
   */
  lemma {:induction false} SamplesFromGoodRecords(records: seq<Raw>, getTime: DateParser)
    ensures forall s :: s in Samples(records, getTime) ==>
              exists r :: r in records && IsValidActivityRecord(r) && IsAccuracyGood(r) && Admit(r, getTime) == Some(s)
  {
    if records != [] {
      var prefix := records[..|records| - 1];
      SamplesFromGoodRecords(prefix, getTime);
      forall s | s in Samples(records, getTime)
        ensures exists r :: r in records && IsValidActivityRecord(r) && IsAccuracyGood(r) && Admit(r, getTime) == Some(s)
      {
        if s in Samples(prefix, getTime) {
          var r :| r in prefix && IsValidActivityRecord(r) && IsAccuracyGood(r) && Admit(r, getTime) == Some(s);
          assert r in records;
        } else {
          assert records[|records| - 1] in records;
        }
      }
    }
  }

  /** What the program reports: the sorted cell lines (when the count stage emits) and the running day totals. */
  datatype Output = Output(report: Option<seq<Entry>>, days: seq<nat>)

  /**
   * Both chains over a finite stream. `getTime` and `encode` stand for the date parser and the
   * cell encoder; `flushAtEnd` for the library's end-of-stream flush. The run fails exactly when
   * the window stage does; otherwise one day-boundary event is pushed per accumulator the window
   * stage emits, the day chain reports 1, 2, ... up to their number, and the report, when the
   * count stage emits, lists the final map's entries ascending by count.
   */
  method Process(records: seq<Raw>, getTime: DateParser, encode: Encoder, flushAtEnd: bool)
    returns (r: Result<Output, Error>)
    ensures r.Failure? <==> Emitted(Samples(records, getTime), encode, flushAtEnd).Failure?
    ensures r.Failure? ==> r.error == Emitted(Samples(records, getTime), encode, flushAtEnd).error
    ensures r.Success? ==>
              var windows := Emitted(Samples(records, getTime), encode, flushAtEnd).value;
              && |r.value.days| == |windows|
              && (forall k :: 0 <= k < |windows| ==> r.value.days[k] == k + 1)
              && (r.value.report.Some? <==> flushAtEnd && windows != [])
              && (r.value.report.Some? ==>
                    && SortedByCount(r.value.report.value)
                    && multiset(r.value.report.value) == multiset(CountVisits(windows).Items))
  {
    var samples := Samples(records, getTime);
    var stage := WindowStage(samples, encode, flushAtEnd);
    if stage.Failure? {
      return Failure(stage.error);
    }
    var windows := stage.value;
    var counts := CellCountStage(windows, flushAtEnd);
    var report: Option<seq<Entry>> := None;
    if counts.Some? {
      var lines := SortedReport(counts.value);
      report := Some(lines);
    }
    var days := DayStage(|windows|, flushAtEnd);
    return Success(Output(report, days));
  }

  /** An empty stream emits no window: no cell line and no day line are printed. */
  lemma EmptyStreamEmitsNothing(getTime: DateParser, encode: Encoder, flushAtEnd: bool)
    ensures Emitted(Samples([], getTime), encode, flushAtEnd) == Success([])
  {
  }

  /**
   * With the end-of-stream flush, the final map counts every surviving sample's cell and no
   * other: its keys are exactly the cells of the samples, and a cell's count is the number of
   * emitted windows that visited it.
   */
  lemma ReportedCellsAreSampleCells(records: seq<Raw>, getTime: DateParser, encode: Encoder, square: string)
    requires Emitted(Samples(records, getTime), encode, true).Success?
    ensures var windows := Emitted(Samples(records, getTime), encode, true).value;
            && CountVisits(windows).Keys == Cells(Samples(records, getTime), encode)
            && Get(CountVisits(windows), square) == Occurrences(windows, square)
  {
    var windows := Emitted(Samples(records, getTime), encode, true).value;
    EmittedCoversStream(Samples(records, getTime), encode);
    CountVisitsKeys(windows);
    CountIsWindowsVisited(windows, square);
  }
}
