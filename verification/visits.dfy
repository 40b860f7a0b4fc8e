/**
 * The cell-count stage of the main chain: a `Map` from cell to the number of flushed
 * windows that visited it, updated in place by the second `bufferize` reducer.
 */
module Visits {
  import opened Wrappers
  import opened Entities
  import opened Filters
  import opened Windows
  import opened WindowRuns

  /** A cell's count, 0 when the cell is absent (`acc.get(square) ?? 0`). */
  function Get(counts: map<string, nat>, square: string): nat
  {
    if square in counts then counts[square] else 0
  }

  /**
   * What the reducer does to the map for one window: every cell of the window gets exactly one
   * more visit (however many samples fell on it), every other cell keeps its count, and no key is lost.
   */
  function Merge(counts: map<string, nat>, squares: set<string>): (r: map<string, nat>)
    ensures r.Keys == counts.Keys + squares
    ensures forall s :: s in squares ==> r[s] == Get(counts, s) + 1
    ensures forall s :: s in counts && s !in squares ==> r[s] == counts[s]
  {
    map s | s in counts.Keys + squares :: Get(counts, s) + (if s in squares then 1 else 0)
  }

  /** Raising one more cell, not yet raised, is merging it too. */
  lemma MergeOneMore(counts: map<string, nat>, done: set<string>, square: string)
    requires square !in done
    ensures Merge(counts, done + {square})
            == Merge(counts, done)[square := Get(Merge(counts, done), square) + 1]
  {
    var left, right := Merge(counts, done + {square}), Merge(counts, done)[square := Get(Merge(counts, done), square) + 1];
    assert left.Keys == right.Keys;
    forall s | s in left.Keys
      ensures left[s] == right[s]
    {
    }
  }

  /** The `Map<string, number>` accumulator of the cell-count stage. */
  class VisitCounts {
    var counts: map<string, nat>

    /** `getInitialValue`: an empty map. */
    constructor ()
      ensures counts == map[]
    {
      counts := map[];
    }

    /** The reducer: a `for` loop over the window's cells, each raised by one in place. */
    method Reduce(squaresVisited: set<string>)
      modifies this
      ensures counts == Merge(old(counts), squaresVisited)
    {
      ghost var initial := counts;
      var rest := squaresVisited;
      ghost var done: set<string> := {};
      while rest != {}
        invariant rest + done == squaresVisited && rest !! done
        invariant counts == Merge(initial, done)
        decreases rest
      {
        var square :| square in rest;
        MergeOneMore(initial, done, square);
        counts := counts[square := Get(counts, square) + 1];
        rest := rest - {square};
        done := done + {square};
      }
    }
  }

  /**
   * The map after a sequence of emitted accumulators, starting from the empty map: every cell
   * present was visited at least once and at most once per accumulator.
   */
  function CountVisits(windows: seq<Stat>): (counts: map<string, nat>)
    ensures forall s :: s in counts ==> 1 <= counts[s] <= |windows|
  {
    if windows == [] then map[]
    else Merge(CountVisits(windows[..|windows| - 1]), windows[|windows| - 1].squaresVisited)
  }

  /** An independent count: how many windows visited a cell. */
  function Occurrences(windows: seq<Stat>, square: string): nat
  {
    if windows == [] then 0
    else Occurrences(windows[..|windows| - 1], square) + (if square in windows[|windows| - 1].squaresVisited then 1 else 0)
  }

  /**
   * The visit semantic: a cell's count is the number of emitted accumulators that hold it, and
   * a cell is in the map exactly when some accumulator holds it.
   */
  lemma {:induction false} CountIsWindowsVisited(windows: seq<Stat>, square: string)
    ensures Get(CountVisits(windows), square) == Occurrences(windows, square)
    ensures square in CountVisits(windows) <==> Occurrences(windows, square) > 0
  {
    if windows != [] {
      CountIsWindowsVisited(windows[..|windows| - 1], square);
    }
  }

  /** The map's keys are exactly the cells the windows hold. */
  lemma {:induction false} CountVisitsKeys(windows: seq<Stat>)
    ensures CountVisits(windows).Keys == SquaresIn(windows)
  {
    if windows != [] {
      CountVisitsKeys(windows[..|windows| - 1]);
    }
  }

  /** Over the run the map only grows: no key disappears and no count goes down. */
  lemma {:induction false} CountVisitsGrows(windows: seq<Stat>, n: nat)
    requires n <= |windows|
    ensures CountVisits(windows[..n]).Keys <= CountVisits(windows).Keys
    ensures forall s :: s in CountVisits(windows[..n]) ==> CountVisits(windows[..n])[s] <= CountVisits(windows)[s]
    decreases |windows| - n
  {
    if n == |windows| {
      assert windows[..n] == windows;
    } else {
      CountVisitsGrows(windows[..|windows| - 1], n);
      assert windows[..|windows| - 1][..n] == windows[..n];
    }
  }

  /**
   * The cell-count stage: it never flushes mid-stream (it has no `shouldFlush`), so the map is
   * emitted once, at end of stream, and only when the library flushes a stage that has seen a window.
   */
  method CellCountStage(windows: seq<Stat>, flushAtEnd: bool) returns (emitted: Option<map<string, nat>>)
    ensures emitted == if flushAtEnd && windows != [] then Some(CountVisits(windows)) else None
  {
    var acc := new VisitCounts();
    var i := 0;
    while i < |windows|
      invariant 0 <= i <= |windows| && fresh(acc)
      invariant acc.counts == CountVisits(windows[..i])
    {
      assert windows[..i + 1][..i] == windows[..i];
      acc.Reduce(windows[i].squaresVisited);
      i := i + 1;
    }
    assert windows[..i] == windows;
    emitted := if flushAtEnd && i > 0 then Some(acc.counts) else None;
  }

  /**
   * Windows 5, 5 on cell `y` then 7, 7 on another cell `x`, with the end-of-stream flush: `x`
   * is visited in window 7 only, yet both emitted accumulators hold it, so it is counted twice;
   * `y` is counted once.
   */
  lemma SameDayCountedTwice(a: Sample, b: Sample, c: Sample, d: Sample, encode: Encoder, x: string, y: string)
    requires TimeToTimeSpan(a.time) == Int(5) && TimeToTimeSpan(b.time) == Int(5)
    requires TimeToTimeSpan(c.time) == Int(7) && TimeToTimeSpan(d.time) == Int(7)
    requires encode(a.lat, a.lng) == Some(y) && encode(b.lat, b.lng) == Some(y)
    requires encode(c.lat, c.lng) == Some(x) && encode(d.lat, d.lng) == Some(x)
    requires x != y
    ensures Emitted([a, b, c, d], encode, true).Success?
    ensures var ws := Emitted([a, b, c, d], encode, true).value;
            && |ws| == 2
            && ws[0].timeSpan == Int(7) && ws[1].timeSpan == Int(7)
            && Get(CountVisits(ws), x) == 2
            && Get(CountVisits(ws), y) == 1
  {
    DaysFiveFiveSevenSeven(a, b, c, d, encode, x, y);
    var w1, w2 := Stat(Int(5), Int(7), 3, {y, x}), Stat(Int(0), Int(7), 1, {x});
    assert [w1, w2][..1] == [w1] && [w1][..0] == [];
    var once := Merge(map[], {y, x});
    assert CountVisits([w1]) == once;
    assert Get(once, x) == 1 && Get(once, y) == 1;
    assert CountVisits([w1, w2]) == Merge(once, {x});
  }
}
