/**
 * The day-counting chain: a `bufferize` over the hand-off queue's zero-payload events whose
 * accumulator is a plain number that is never reset.
 */
module Days {

  /** `getInitialValue`. */
  const DayInitial: nat := 0

  /** `reducer`: one more day, so the total strictly grows. */
  function DayReduce(acc: nat): (total: nat)
    ensures total > acc
  {
    acc + 1
  }

  /** `shouldFlush`: every event is reported, whatever the total. */
  function DayShouldFlush(acc: nat): (flush: bool)
    ensures flush
  {
    true
  }

  /** `getNextInitialValue`: the running total carries over the flush and is never reset. */
  function DayNextInitialValue(acc: nat): (next: nat)
    ensures next == acc
  {
    acc
  }

  /**
   * The stage over `events` day-boundary events: the `bufferize` loop with the four callbacks
   * above. It emits the running totals 1, 2, ..., events, the last being the number of events;
   * nothing is pending at end of stream, so the end-of-stream flush adds nothing.
   */
  method DayStage(events: nat, flushAtEnd: bool) returns (emitted: seq<nat>)
    ensures |emitted| == events
    ensures forall k :: 0 <= k < events ==> emitted[k] == k + 1
    ensures events > 0 ==> emitted[events - 1] == events
  {
    var acc := DayInitial;
    var pending := false;
    emitted := [];
    var n := 0;
    while n < events
      invariant 0 <= n <= events
      invariant acc == n && !pending
      invariant |emitted| == n
      invariant forall k :: 0 <= k < n ==> emitted[k] == k + 1
    {
      acc := DayReduce(acc);
      pending := true;
      if DayShouldFlush(acc) {
        emitted := emitted + [acc];
        acc := DayNextInitialValue(acc);
        pending := false;
      }
      n := n + 1;
    }
    if flushAtEnd && pending {
      emitted := emitted + [acc];
    }
  }
}
