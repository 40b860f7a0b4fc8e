/**
 * What the window stage does to a whole stream: every sample is counted in exactly one
 * accumulator, the stage fails exactly when some cell cannot be encoded, and for a stream in
 * time order the accumulators close in chronological order.
 */
module WindowRuns {
  import opened Wrappers
  import opened Entities
  import opened Filters
  import opened Windows

  /** The samples counted by a sequence of accumulators. */
  function SizeSum(ws: seq<Stat>): nat
  {
    if ws == [] then 0 else SizeSum(ws[..|ws| - 1]) + ws[|ws| - 1].size
  }

  /** The cells held by a sequence of accumulators. */
  function SquaresIn(ws: seq<Stat>): set<string>
  {
    if ws == [] then {} else SquaresIn(ws[..|ws| - 1]) + ws[|ws| - 1].squaresVisited
  }

  /** The cells of the samples the encoder can place. */
  function Cells(samples: seq<Sample>, encode: Encoder): set<string>
  {
    if samples == [] then {}
    else
      var s := samples[|samples| - 1];
      Cells(samples[..|samples| - 1], encode) +
        (match encode(s.lat, s.lng) case Some(c) => {c} case None => {})
  }

  /** Every sample seen is counted once, every accumulator flushed mid-stream has at least two samples, every cell is kept. */
  ghost predicate Accounted(run: Run, samples: seq<Sample>, encode: Encoder)
  {
    && SizeSum(run.flushed) + run.pending.size == |samples|
    && (forall k :: 0 <= k < |run.flushed| ==> run.flushed[k].size >= 2)
    && (run.pending.size == 0 ==> run.pending == Initial())
    && SquaresIn(run.flushed) + run.pending.squaresVisited == Cells(samples, encode)
  }

  lemma SizeSumAppend(ws: seq<Stat>, w: Stat)
    ensures SizeSum(ws + [w]) == SizeSum(ws) + w.size
    ensures SquaresIn(ws + [w]) == SquaresIn(ws) + w.squaresVisited
  {
    assert (ws + [w])[..|ws|] == ws;
  }

  lemma {:induction false} SizeSumAtLeastTwice(ws: seq<Stat>)
    requires forall k :: 0 <= k < |ws| ==> ws[k].size >= 2
    ensures SizeSum(ws) >= 2 * |ws|
  {
    if ws != [] {
      SizeSumAtLeastTwice(ws[..|ws| - 1]);
    }
  }

  /**
   * The window stage loses and duplicates nothing: the sizes of the flushed accumulators and of
   * the pending one add up to the number of samples, their cells are exactly the samples' cells,
   * and since a flush needs a non-sentinel previous window each flushed accumulator holds at
   * least two samples, so there are at most half as many flushes as samples.
   */
  lemma {:induction false} FoldAccounts(samples: seq<Sample>, encode: Encoder)
    requires Fold(samples, encode).Success?
    ensures Accounted(Fold(samples, encode).value, samples, encode)
    ensures 2 * |Fold(samples, encode).value.flushed| <= |samples|
  {
    if samples != [] {
      var prefix := samples[..|samples| - 1];
      FoldAccounts(prefix, encode);
      StepAccounts(Fold(prefix, encode).value, prefix, samples[|samples| - 1], encode);
      assert prefix + [samples[|samples| - 1]] == samples;
    }
    SizeSumAtLeastTwice(Fold(samples, encode).value.flushed);
  }

  /** One step of the stage keeps the accounting. */
  lemma StepAccounts(run: Run, samples: seq<Sample>, s: Sample, encode: Encoder)
    requires Accounted(run, samples, encode) && Step(run, s, encode).Success?
    ensures Accounted(Step(run, s, encode).value, samples + [s], encode)
  {
    assert (samples + [s])[..|samples|] == samples;
    var acc := run.pending.Reduce(s, encode(s.lat, s.lng).value);
    if acc.ShouldFlush() {
      assert Step(run, s, encode).value == Run(run.flushed + [acc], Initial());
      assert run.pending != Initial();
      SizeSumAppend(run.flushed, acc);
    } else {
      assert Step(run, s, encode).value == Run(run.flushed, acc);
    }
  }

  /**
   * With the end-of-stream flush, what the stage emits covers the stream exactly: the sizes of
   * the emitted accumulators add up to the number of samples and their cells are the samples' cells.
   */
  lemma EmittedCoversStream(samples: seq<Sample>, encode: Encoder)
    requires Emitted(samples, encode, true).Success?
    ensures SizeSum(Emitted(samples, encode, true).value) == |samples|
    ensures SquaresIn(Emitted(samples, encode, true).value) == Cells(samples, encode)
  {
    FoldAccounts(samples, encode);
    var run := Fold(samples, encode).value;
    var ws := Emitted(samples, encode, true).value;
    if run.pending.size > 0 {
      assert ws == run.flushed + [run.pending];
      SizeSumAppend(run.flushed, run.pending);
    }
  }

  /** The stage fails exactly when the encoder cannot place one of the samples. */
  lemma {:induction false} FoldFailsIff(samples: seq<Sample>, encode: Encoder)
    ensures Fold(samples, encode).Failure?
            <==> exists i :: 0 <= i < |samples| && encode(samples[i].lat, samples[i].lng).None?
  {
    if samples != [] {
      var prefix := samples[..|samples| - 1];
      FoldFailsIff(prefix, encode);
      if exists i :: 0 <= i < |prefix| && encode(prefix[i].lat, prefix[i].lng).None? {
        var i :| 0 <= i < |prefix| && encode(prefix[i].lat, prefix[i].lng).None?;
        assert samples[i] == prefix[i];
      }
    }
  }

  /** The window of a sample with an integral time. */
  function WindowOf(s: Sample): int
    requires s.time.Int?
  {
    TimeToTimeSpan(s.time).i
  }

  /** Integral times, in non-decreasing order: the stream the windowing relies on. */
  ghost predicate Chronological(samples: seq<Sample>)
  {
    forall i, j :: 0 <= i <= j < |samples| ==>
      samples[i].time.Int? && samples[j].time.Int? && samples[i].time.i <= samples[j].time.i
  }

  /** The flushed accumulators close strictly increasing windows, none after the last sample's. */
  ghost predicate InOrder(run: Run, last: int)
  {
    && (forall k :: 0 <= k < |run.flushed| ==>
          run.flushed[k].timeSpan.Int? && run.flushed[k].timeSpan.i <= last)
    && (forall k, l :: 0 <= k < l < |run.flushed| ==>
          run.flushed[k].timeSpan.Int? && run.flushed[l].timeSpan.Int? &&
          run.flushed[k].timeSpan.i < run.flushed[l].timeSpan.i)
    && (run.pending == Initial() || run.pending.timeSpan == Int(last))
  }

  /**
   * For a stream in time order, the accumulators flushed mid-stream come in chronological
   * order: each closes a window later than the one before, and each ends in a later window than
   * the one of its previous sample.
   */
  lemma {:induction false} ChronologicalFlushes(samples: seq<Sample>, encode: Encoder)
    requires Chronological(samples) && samples != []
    requires Fold(samples, encode).Success?
    ensures InOrder(Fold(samples, encode).value, WindowOf(samples[|samples| - 1]))
    ensures forall k :: 0 <= k < |Fold(samples, encode).value.flushed| ==>
              var w := Fold(samples, encode).value.flushed[k];
              w.prevTimeSpan.Int? && w.timeSpan.Int? && w.prevTimeSpan.i < w.timeSpan.i
  {
    var prefix := samples[..|samples| - 1];
    var s := samples[|samples| - 1];
    assert s.time.Int?;
    if prefix == [] {
      assert Fold(prefix, encode) == Success(Run([], Initial()));
    } else {
      assert Chronological(prefix);
      ChronologicalFlushes(prefix, encode);
      var p := prefix[|prefix| - 1];
      assert p == samples[|samples| - 2];
      TimeSpanMonotone(p.time.i, s.time.i);
      var run := Fold(prefix, encode).value;
      var acc := run.pending.Reduce(s, encode(s.lat, s.lng).value);
      if acc.ShouldFlush() {
        assert run.pending != Initial();
        var next := run.flushed + [acc];
        assert forall k :: 0 <= k < |run.flushed| ==> next[k] == run.flushed[k];
      }
    }
  }

  /**
   * For a stream in time order, everything the stage emits is in window order: the accumulators
   * flushed mid-stream close strictly increasing windows, and the one the end-of-stream flush
   * adds may close the same window as the accumulator before it, but never an earlier one.
   */
  lemma ChronologicalEmissions(samples: seq<Sample>, encode: Encoder, flushAtEnd: bool)
    requires Chronological(samples) && samples != []
    requires Emitted(samples, encode, flushAtEnd).Success?
    ensures var ws := Emitted(samples, encode, flushAtEnd).value;
            var n := |Fold(samples, encode).value.flushed|;
            && |ws| <= n + 1
            && (forall k :: 0 <= k < |ws| ==> ws[k].timeSpan.Int?)
            && (forall k, l :: 0 <= k < l < |ws| ==>
                  ws[k].timeSpan.Int? && ws[l].timeSpan.Int? && ws[k].timeSpan.i <= ws[l].timeSpan.i)
            && (forall k, l :: 0 <= k < l < n ==>
                  ws[k].timeSpan.Int? && ws[l].timeSpan.Int? && ws[k].timeSpan.i < ws[l].timeSpan.i)
  {
    FoldAccounts(samples, encode);
    ChronologicalFlushes(samples, encode);
    var run := Fold(samples, encode).value;
    var ws := Emitted(samples, encode, flushAtEnd).value;
    if |ws| > |run.flushed| {
      assert ws == run.flushed + [run.pending];
      assert run.pending != Initial();
      assert run.pending.timeSpan == Int(WindowOf(samples[|samples| - 1]));
    } else {
      assert ws == run.flushed;
    }
  }

  /**
   * Windows 5, 5 and 7: the day-7 sample triggers the one flush, so it is counted in the
   * accumulator of day 5, and the stage restarts empty. Even with the end-of-stream flush
   * only one accumulator is emitted, so the day counter downstream reaches 1, not 2.
   */
  lemma DaysFiveFiveSeven(a: Sample, b: Sample, c: Sample, encode: Encoder, flushAtEnd: bool)
    requires TimeToTimeSpan(a.time) == Int(5) && TimeToTimeSpan(b.time) == Int(5)
    requires TimeToTimeSpan(c.time) == Int(7)
    requires encode(a.lat, a.lng).Some? && encode(b.lat, b.lng).Some? && encode(c.lat, c.lng).Some?
    ensures Emitted([a, b, c], encode, flushAtEnd).Success?
    ensures var ws := Emitted([a, b, c], encode, flushAtEnd).value;
            && |ws| == 1
            && ws[0].size == 3
            && ws[0].prevTimeSpan == Int(5) && ws[0].timeSpan == Int(7)
            && ws[0].squaresVisited
               == {encode(a.lat, a.lng).value, encode(b.lat, b.lng).value, encode(c.lat, c.lng).value}
  {
    var ca, cb, cc := encode(a.lat, a.lng).value, encode(b.lat, b.lng).value, encode(c.lat, c.lng).value;
    assert [a][..0] == [];
    var r1 := Run([], Initial().Reduce(a, ca));
    assert Fold([a], encode) == Success(r1);
    assert [a, b][..1] == [a];
    var r2 := Run([], r1.pending.Reduce(b, cb));
    assert Fold([a, b], encode) == Success(r2);
    assert [a, b, c][..2] == [a, b];
    var w := r2.pending.Reduce(c, cc);
    assert w.ShouldFlush();
    assert Step(r2, c, encode) == Success(Run(r2.flushed + [w], Initial()));
    assert r2.flushed + [w] == [w];
    assert Fold([a, b, c], encode) == Success(Run([w], Initial()));
  }

  /**
   * Windows 5, 5 on cell `y` then 7, 7 on cell `x`, with the end-of-stream flush: the first
   * day-7 sample closes the day-5 accumulator and the second starts a new one, so two
   * accumulators are emitted, both end in window 7, and both hold `x`.
   */
  lemma DaysFiveFiveSevenSeven(a: Sample, b: Sample, c: Sample, d: Sample, encode: Encoder, x: string, y: string)
    requires TimeToTimeSpan(a.time) == Int(5) && TimeToTimeSpan(b.time) == Int(5)
    requires TimeToTimeSpan(c.time) == Int(7) && TimeToTimeSpan(d.time) == Int(7)
    requires encode(a.lat, a.lng) == Some(y) && encode(b.lat, b.lng) == Some(y)
    requires encode(c.lat, c.lng) == Some(x) && encode(d.lat, d.lng) == Some(x)
    ensures Emitted([a, b, c, d], encode, true)
            == Success([Stat(Int(5), Int(7), 3, {y, x}), Stat(Int(0), Int(7), 1, {x})])
  {
    assert [a][..0] == [];
    var r1 := Run([], Stat(Int(0), Int(5), 1, {y}));
    assert Fold([a], encode) == Success(r1);
    assert [a, b][..1] == [a];
    var r2 := Run([], Stat(Int(5), Int(5), 2, {y}));
    assert Fold([a, b], encode) == Success(r2);
    assert [a, b, c][..2] == [a, b];
    var w1 := Stat(Int(5), Int(7), 3, {y, x});
    assert {y} + {x} == {y, x};
    assert r2.pending.Reduce(c, x) == w1;
    assert Step(r2, c, encode) == Success(Run([w1], Initial()));
    assert Fold([a, b, c], encode) == Success(Run([w1], Initial()));
    assert [a, b, c, d][..3] == [a, b, c];
    var w2 := Stat(Int(0), Int(7), 1, {x});
    assert Fold([a, b, c, d], encode) == Success(Run([w1], w2));
    assert Finish(Run([w1], w2), true) == [w1, w2];
  }
}
