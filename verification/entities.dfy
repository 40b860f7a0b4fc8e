/**
 * The shapes of entities.ts as process.ts sees them: a decoded JSON element of the
 * `locations` array, and the `[lat, lng, time]` triple that `parseLocation` makes of it.
 */
module Entities {

  /**
   * A JavaScript number. The pipeline meets integral values (E7 coordinates, accuracies,
   * epoch milliseconds) and NaN, which `new Date(...).getTime()` yields for a timestamp
   * it cannot parse.
   */
  datatype Num = Int(i: int) | NaN

  /** JavaScript's `!==` on numbers: NaN differs from every number, itself included. */
  predicate StrictNotEqual(a: Num, b: Num) {
    !(a.Int? && b.Int? && a.i == b.i)
  }

  /** A JSON value as far as `typeof` and the date parser look at it; `Other` is anything else (undefined included). */
  datatype Value = Number(n: Num) | Str(s: string) | Other

  /** A decoded element: an object with its own keys, or a non-object (null, a string, a number, a boolean). */
  datatype Raw = Object(fields: map<string, Value>) | NonObject

  /** Reading a property: an absent key reads as `undefined`. */
  function Field(record: Raw, key: string): Value
    requires record.Object?
  {
    if key in record.fields then record.fields[key] else Other
  }

  /** What `new Date(timestamp).getTime()` returns for a timestamp value; date parsing is not part of this model. */
  type DateParser = Value -> Num

  /** `LocationWithTime` before the type guard narrows it: three values of any type. */
  datatype LocationWithTime = LocationWithTime(lat: Value, lng: Value, time: Value)

  /** `LocationWithTime` after the type guard: three numbers. */
  datatype Sample = Sample(lat: Num, lng: Num, time: Num)

  /**
   * `parseLocation`: copies `latitudeE7` and `longitudeE7` and converts `timestamp` into
   * milliseconds. The third component is always a number (NaN when the date is invalid).
   */
  function ParseLocation(record: Raw, getTime: DateParser): (loc: LocationWithTime)
    requires record.Object?
    ensures loc.lat == Field(record, "latitudeE7") && loc.lng == Field(record, "longitudeE7")
    ensures loc.time.Number?
  {
    LocationWithTime(Field(record, "latitudeE7"), Field(record, "longitudeE7"),
                     Number(getTime(Field(record, "timestamp"))))
  }
}
