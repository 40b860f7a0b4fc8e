/**
 * The small pure helpers of process.ts: the time-to-window mapping, the three filters
 * of the main chain and the cell encoder.
 */
module Filters {
  import opened Wrappers
  import opened Entities

  /** The length of one window ("day"), in milliseconds. */
  const TIME_SPAN_DURATION: int := 24 * 60 * 60 * 1000

  /** The fatal error of a run: the cell encoder returned nothing and `fail()` threw. */
  datatype Error = EncodeFailed(lat: Num, lng: Num)

  /** The cell encoder (`encode` of the plus-codes library at precision 8, on degrees); opaque to this model. */
  type Encoder = (Num, Num) -> Option<string>

  /**
   * `timeToTimeSpan`: the window of a time, `Math.floor(time / TIME_SPAN_DURATION)`.
   * The window of an integral time is its floor quotient; NaN stays NaN.
   */
  function TimeToTimeSpan(time: Num): (span: Num)
    ensures span.NaN? <==> time.NaN?
    ensures time.Int? ==> span.i * TIME_SPAN_DURATION <= time.i < (span.i + 1) * TIME_SPAN_DURATION
  {
    match time
    case NaN => NaN
    case Int(t) => Int(t / TIME_SPAN_DURATION)
  }

  /** The window is the only `k` whose day `[k * D, (k + 1) * D)` holds the time. */
  lemma TimeSpanUnique(t: int, k: int)
    requires k * TIME_SPAN_DURATION <= t < (k + 1) * TIME_SPAN_DURATION
    ensures TimeToTimeSpan(Int(t)) == Int(k)
  {
  }

  /** A later time never falls in an earlier window. */
  lemma TimeSpanMonotone(t1: int, t2: int)
    requires t1 <= t2
    ensures TimeToTimeSpan(Int(t1)).i <= TimeToTimeSpan(Int(t2)).i
  {
  }

  /** Two times share a window exactly when both lie in the same day `[k * D, (k + 1) * D)`. */
  lemma SameTimeSpan(t1: int, t2: int, k: int)
    requires k * TIME_SPAN_DURATION <= t1 < (k + 1) * TIME_SPAN_DURATION
    ensures TimeToTimeSpan(Int(t1)) == TimeToTimeSpan(Int(t2))
            <==> k * TIME_SPAN_DURATION <= t2 < (k + 1) * TIME_SPAN_DURATION
  {
    TimeSpanUnique(t1, k);
    if k * TIME_SPAN_DURATION <= t2 < (k + 1) * TIME_SPAN_DURATION {
      TimeSpanUnique(t2, k);
    }
  }

  /**
   * `isValidActivityRecord`: a truthy object that has the five keys `latitudeE7`,
   * `longitudeE7`, `accuracy`, `activity` and `timestamp`. The values' types are not checked.
   */
  function IsValidActivityRecord(record: Raw): (valid: bool)
    ensures valid ==> record.Object?
  {
    record.Object? &&
    "latitudeE7" in record.fields &&
    "longitudeE7" in record.fields &&
    "accuracy" in record.fields &&
    "activity" in record.fields &&
    "timestamp" in record.fields
  }

  /** Validity depends on the keys only: changing the value of a present key never changes it. */
  lemma ValidityIgnoresValues(m: map<string, Value>, k: string, v: Value)
    requires k in m
    ensures IsValidActivityRecord(Object(m)) <==> IsValidActivityRecord(Object(m[k := v]))
  {
  }

  /** Each of the five keys is required: a record without it is never valid. */
  lemma MissingKeyInvalid(m: map<string, Value>, k: string)
    requires k in {"latitudeE7", "longitudeE7", "accuracy", "activity", "timestamp"}
    ensures !IsValidActivityRecord(Object(m - {k}))
  {
  }

  /** An object holding the five keys is valid, whatever their values. */
  lemma FiveKeysValid(m: map<string, Value>)
    requires "latitudeE7" in m && "longitudeE7" in m && "accuracy" in m
    requires "activity" in m && "timestamp" in m
    ensures IsValidActivityRecord(Object(m))
  {
  }

  /**
   * `isAccuracyGood`: the accuracy is strictly below 50. Only an integral accuracy passes: a NaN
   * accuracy compares false, and any other value is treated as failing.
   */
  function IsAccuracyGood(record: Raw): (good: bool)
    requires IsValidActivityRecord(record)
    ensures good ==> Field(record, "accuracy").Number? && Field(record, "accuracy").n.Int?
                     && Field(record, "accuracy").n.i < 50
    ensures Field(record, "accuracy") == Number(NaN) ==> !good
  {
    match Field(record, "accuracy")
    case Number(Int(a)) => a < 50
    case _ => false
  }

  /** The threshold is strict: an accuracy of exactly 50 is dropped, 49 is kept. */
  lemma AccuracyThreshold(record: Raw, a: int)
    requires IsValidActivityRecord(record) && record.fields["accuracy"] == Number(Int(a))
    ensures IsAccuracyGood(record) <==> a < 50
    ensures a == 50 ==> !IsAccuracyGood(record)
  {
  }

  /** `isValidLocationWithTime`: all three components have `typeof` `'number'` (NaN included). */
  function IsValidLocationWithTime(loc: LocationWithTime): (valid: bool)
    ensures valid ==> loc.lat.Number? && loc.lng.Number?
    ensures loc.lat.Number? && loc.lng.Number? && loc.time == Number(NaN) ==> valid
  {
    loc.lat.Number? && loc.lng.Number? && loc.time.Number?
  }

  /**
   * The time component never fails the type guard, not even when the timestamp does not
   * parse: the guard lets a NaN time through and drops only non-numeric coordinates.
   */
  lemma UnparsableTimestampKept(record: Raw, getTime: DateParser)
    requires record.Object?
    ensures IsValidLocationWithTime(ParseLocation(record, getTime))
            <==> Field(record, "latitudeE7").Number? && Field(record, "longitudeE7").Number?
  {
  }

  /** `latLngToSquareKey`: the encoder's cell, or the fatal error when it returns nothing. */
  function LatLngToSquareKey(encode: Encoder, lat: Num, lng: Num): (key: Result<string, Error>)
    ensures key.Failure? <==> encode(lat, lng).None?
    ensures key.Success? ==> Some(key.value) == encode(lat, lng)
  {
    match encode(lat, lng)
    case Some(cell) => Success(cell)
    case None => Failure(EncodeFailed(lat, lng))
  }
}
