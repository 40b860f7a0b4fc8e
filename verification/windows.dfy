/**
 * The window ("day") stage of the main chain: the `TimeSpanStatItem` accumulator, its
 * reducer and flush predicate, and the fold/flush loop of `bufferize` that drives them.
 */
module Windows {
  import opened Wrappers
  import opened Entities
  import opened Filters

  /** The value held by a `TimeSpanStatItem`. */
  datatype Stat = Stat(prevTimeSpan: Num, timeSpan: Num, size: nat, squaresVisited: set<string>)
  {
    /**
     * The reducer's effect once the sample's cell is known: one more sample, the cell added to
     * the cells already seen, the current window shifted into the previous one.
     */
    function Reduce(sample: Sample, square: string): (r: Stat)
      ensures r.size == size + 1 && r.prevTimeSpan == timeSpan
      ensures squaresVisited <= r.squaresVisited && square in r.squaresVisited
      ensures |r.squaresVisited| <= |squaresVisited| + 1
    {
      Stat(timeSpan, TimeToTimeSpan(sample.time), size + 1, squaresVisited + {square})
    }

    /**
     * `shouldFlush`: the previous window is not the sentinel 0 and differs from the current one.
     * A sentinel previous window never flushes; a NaN previous window always does; any other
     * previous window flushes exactly when the current window is a different one.
     */
    function ShouldFlush(): (flush: bool)
      ensures prevTimeSpan == Int(0) ==> !flush
      ensures prevTimeSpan.NaN? ==> flush
      ensures prevTimeSpan == timeSpan && prevTimeSpan.Int? ==> !flush
      ensures flush <==> prevTimeSpan != Int(0) && !(prevTimeSpan.Int? && prevTimeSpan == timeSpan)
    {
      StrictNotEqual(prevTimeSpan, Int(0)) && StrictNotEqual(prevTimeSpan, timeSpan)
    }
  }

  /**
   * `getInitialValue`: both window keys at the sentinel 0, no sample, no cell. The sentinel
   * means the first sample folded into it never triggers a flush.
   */
  function Initial(): (init: Stat)
    ensures init.size == 0 && init.squaresVisited == {}
    ensures forall sample, square :: !init.Reduce(sample, square).ShouldFlush()
  {
    Stat(Int(0), Int(0), 0, {})
  }

  /** The mutable accumulator of the window stage. */
  class TimeSpanStatItem {
    var prevTimeSpan: Num
    var timeSpan: Num
    var size: nat
    var squaresVisited: set<string>

    function View(): Stat
      reads this
    {
      Stat(prevTimeSpan, timeSpan, size, squaresVisited)
    }

    /** `getInitialValue`. */
    constructor ()
      ensures View() == Initial()
    {
      prevTimeSpan, timeSpan, size, squaresVisited := Int(0), Int(0), 0, {};
    }

    /**
     * The reducer, in place: the old window becomes the previous one, the sample's window the
     * current one, one more sample is counted and its cell joins the set. When the encoder fails
     * the three counters have already changed and the set has not (the program throws at that point).
     */
    method Reduce(sample: Sample, encode: Encoder) returns (key: Result<string, Error>)
      modifies this
      ensures key == LatLngToSquareKey(encode, sample.lat, sample.lng)
      ensures prevTimeSpan == old(timeSpan)
      ensures timeSpan == TimeToTimeSpan(sample.time)
      ensures size == old(size) + 1
      ensures squaresVisited == if key.Success? then old(squaresVisited) + {key.value} else old(squaresVisited)
      ensures key.Success? ==> View() == old(View()).Reduce(sample, key.value)
    {
      prevTimeSpan := timeSpan;
      timeSpan := TimeToTimeSpan(sample.time);
      size := size + 1;
      key := LatLngToSquareKey(encode, sample.lat, sample.lng);
      if key.Success? {
        squaresVisited := squaresVisited + {key.value};
      }
    }
  }

  /** The window stage between two samples: the accumulators emitted so far and the one being filled. */
  datatype Run = Run(flushed: seq<Stat>, pending: Stat)

  /**
   * One sample through `bufferize`: fold it in first, then flush and reset when `shouldFlush`
   * holds. It fails exactly when the cell cannot be encoded; otherwise it emits at most one
   * accumulator, keeps what was emitted before, and restarts from the initial value after a flush.
   */
  function Step(run: Run, sample: Sample, encode: Encoder): (r: Result<Run, Error>)
    ensures r.Failure? <==> encode(sample.lat, sample.lng).None?
    ensures r.Success? ==>
              || r.value.flushed == run.flushed
              || (|r.value.flushed| == |run.flushed| + 1 && r.value.flushed[..|run.flushed|] == run.flushed
                  && r.value.pending == Initial())
  {
    match LatLngToSquareKey(encode, sample.lat, sample.lng)
    case Failure(e) => Failure(e)
    case Success(square) =>
      var acc := run.pending.Reduce(sample, square);
      if acc.ShouldFlush() then Success(Run(run.flushed + [acc], Initial()))
      else Success(Run(run.flushed, acc))
  }

  /** All samples through `bufferize`, in order, stopping at the first fatal error; never more flushes than samples. */
  function Fold(samples: seq<Sample>, encode: Encoder): (r: Result<Run, Error>)
    ensures r.Success? ==> |r.value.flushed| <= |samples|
  {
    if samples == [] then Success(Run([], Initial()))
    else
      match Fold(samples[..|samples| - 1], encode)
      case Failure(e) => Failure(e)
      case Success(run) => Step(run, samples[|samples| - 1], encode)
  }

  /**
   * End of stream. The library that runs the stage is not part of this model; `flushAtEnd` says
   * whether it emits a trailing accumulator that has seen at least one sample.
   */
  function Finish(run: Run, flushAtEnd: bool): (ws: seq<Stat>)
    ensures |run.flushed| <= |ws| <= |run.flushed| + 1 && ws[..|run.flushed|] == run.flushed
    ensures |ws| > |run.flushed| ==> flushAtEnd && ws[|run.flushed|].size > 0
  {
    if flushAtEnd && run.pending.size > 0 then run.flushed + [run.pending] else run.flushed
  }

  /** Everything the window stage emits downstream: the mid-stream flushes, then at most one trailing accumulator. */
  function Emitted(samples: seq<Sample>, encode: Encoder, flushAtEnd: bool): (r: Result<seq<Stat>, Error>)
    ensures r.Success? <==> Fold(samples, encode).Success?
    ensures r.Success? ==>
              var flushed := Fold(samples, encode).value.flushed;
              |flushed| <= |r.value| <= |flushed| + 1 && r.value[..|flushed|] == flushed
  {
    match Fold(samples, encode)
    case Failure(e) => Failure(e)
    case Success(run) => Success(Finish(run, flushAtEnd))
  }

  /** The window stage run over a finite stream with a mutable accumulator, as `bufferize` does. */
  method WindowStage(samples: seq<Sample>, encode: Encoder, flushAtEnd: bool) returns (r: Result<seq<Stat>, Error>)
    ensures r == Emitted(samples, encode, flushAtEnd)
  {
    var acc := new TimeSpanStatItem();
    var flushed: seq<Stat> := [];
    var i := 0;
    while i < |samples|
      invariant 0 <= i <= |samples|
      invariant fresh(acc)
      invariant Fold(samples[..i], encode) == Success(Run(flushed, acc.View()))
    {
      assert samples[..i + 1][..i] == samples[..i];
      var key := acc.Reduce(samples[i], encode);
      if key.Failure? {
        FoldFailureSticks(samples, encode, i + 1);
        return Failure(key.error);
      }
      if acc.View().ShouldFlush() {
        flushed := flushed + [acc.View()];
        acc := new TimeSpanStatItem();
      }
      i := i + 1;
    }
    assert samples[..i] == samples;
    if flushAtEnd && acc.size > 0 {
      flushed := flushed + [acc.View()];
    }
    return Success(flushed);
  }

  /** Once a prefix fails, the whole stream fails with the same error. */
  lemma {:induction false} FoldFailureSticks(samples: seq<Sample>, encode: Encoder, n: nat)
    requires n <= |samples| && Fold(samples[..n], encode).Failure?
    ensures Fold(samples, encode) == Fold(samples[..n], encode)
    decreases |samples| - n
  {
    if n < |samples| {
      assert samples[..n + 1][..n] == samples[..n];
      FoldFailureSticks(samples, encode, n + 1);
    } else {
      assert samples[..n] == samples;
    }
  }

  // ---------------------------------------------------------------------------
  // Properties of one step

  /** The first sample after a reset (or at the start) leaves exactly one sample pending. */
  lemma FirstSampleStartsCount(sample: Sample, square: string)
    ensures Initial().Reduce(sample, square).size == 1
  {
  }

  /**
   * The flush that drives the stage: when the pending accumulator is in a non-sentinel integral
   * window and a sample of another window arrives, exactly one accumulator is emitted.
   */
  lemma WindowChangeFlushes(run: Run, sample: Sample, encode: Encoder, k: int)
    requires run.pending.timeSpan == Int(k) && k != 0
    requires TimeToTimeSpan(sample.time) != Int(k)
    requires Step(run, sample, encode).Success?
    ensures |Step(run, sample, encode).value.flushed| == |run.flushed| + 1
  {
  }

  /** A second sample on a cell already visited leaves the visited set as it was. */
  lemma RevisitKeepsSquares(acc: Stat, sample: Sample, square: string)
    requires square in acc.squaresVisited
    ensures acc.Reduce(sample, square).squaresVisited == acc.squaresVisited
    ensures |acc.Reduce(sample, square).squaresVisited| == |acc.squaresVisited|
  {
  }

  /**
   * A flush is decided after the triggering sample is folded in: the emitted accumulator ends in
   * the trigger's window, holds the trigger's cell, and the stage restarts from the sentinel.
   */
  lemma FlushHoldsTrigger(run: Run, sample: Sample, encode: Encoder)
    requires Step(run, sample, encode).Success?
    requires |Step(run, sample, encode).value.flushed| != |run.flushed|
    ensures var next := Step(run, sample, encode).value;
            var w := next.flushed[|next.flushed| - 1];
            && next.pending == Initial()
            && next.flushed == run.flushed + [w]
            && w.timeSpan == TimeToTimeSpan(sample.time)
            && w.prevTimeSpan == run.pending.timeSpan
            && StrictNotEqual(run.pending.timeSpan, Int(0))
            && encode(sample.lat, sample.lng).value in w.squaresVisited
            && w.size == run.pending.size + 1
  {
  }

  /** Whatever the next sample is, the step right after a flush does not flush again. */
  lemma NoFlushRightAfterFlush(run: Run, s1: Sample, s2: Sample, encode: Encoder)
    requires Step(run, s1, encode).Success?
    requires |Step(run, s1, encode).value.flushed| != |run.flushed|
    requires Step(Step(run, s1, encode).value, s2, encode).Success?
    ensures Step(Step(run, s1, encode).value, s2, encode).value.flushed == Step(run, s1, encode).value.flushed
  {
  }

  /** A sample in the epoch-start window (window 0) cannot close anything on the next step: 0 is the sentinel. */
  lemma EpochWindowIsSentinel(acc: Stat, s1: Sample, s2: Sample, c1: string, c2: string)
    requires TimeToTimeSpan(s1.time) == Int(0)
    ensures !acc.Reduce(s1, c1).Reduce(s2, c2).ShouldFlush()
  {
  }

  /**
   * A sample whose time is NaN flushes the stage by itself unless the pending accumulator is at
   * the sentinel window 0, because every number differs from NaN.
   */
  lemma NaNTimeFlushesUnlessSentinel(run: Run, sample: Sample, encode: Encoder)
    requires sample.time.NaN? && Step(run, sample, encode).Success?
    ensures |Step(run, sample, encode).value.flushed| != |run.flushed|
            <==> StrictNotEqual(run.pending.timeSpan, Int(0))
  {
  }

  /**
   * When a NaN-time sample did not flush (the pending window was the sentinel), the sample after
   * it flushes whatever its window: the previous window is then NaN.
   */
  lemma NaNTimeFlushesNext(run: Run, s1: Sample, s2: Sample, encode: Encoder)
    requires s1.time.NaN? && Step(run, s1, encode).Success?
    requires |Step(run, s1, encode).value.flushed| == |run.flushed|
    requires Step(Step(run, s1, encode).value, s2, encode).Success?
    ensures |Step(Step(run, s1, encode).value, s2, encode).value.flushed| == |run.flushed| + 1
  {
  }
}
