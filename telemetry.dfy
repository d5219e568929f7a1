/** Values shared by the consumer's components: decoded payloads, the library
    conversions the validator relies on, validated readings and message handles. */
module Telemetry {

  datatype Option<T> = None | Some(value: T)

  /** A value as `json.loads` produces it (numbers of either JSON kind are reals). */
  datatype Json =
    | JNull
    | JBool(b: bool)
    | JNumber(n: real)
    | JString(s: string)
    | JArray(elements: seq<Json>)
    | JObject(members: map<string, Json>)

  /** A decoded message body: field name to value. */
  type Payload = map<string, Json>

  /** A Python float: a finite value, an infinity or NaN. Every ordered
      comparison with NaN is false, and an infinity lies outside every finite range. */
  datatype Float = Finite(value: real) | PosInfinity | NegInfinity | NaN

  /** `lo <= f <= hi` as Python evaluates it on a float against two numbers. */
  predicate Within(f: Float, lo: real, hi: real) {
    f.Finite? && lo <= f.value && f.value <= hi
  }

  /** A point in time (a `datetime`), counted in microseconds. */
  datatype Timestamp = Timestamp(micros: int)

  /** The outcome of a library conversion: a value, an exception the validator
      catches (`ValueError` or `TypeError`), or any other exception, which
      escapes the validator (for instance `OverflowError` from `float()`). */
  datatype Conversion<T> = Converted(value: T) | ConversionError | OtherError

  /** The library behaviour the validator calls: `str()`, `dateutil.parser.isoparse`
      and `float()`, each applied to a decoded value. */
  datatype Coercions = Coercions(
    str: Json -> string,
    isoparse: Json -> Conversion<Timestamp>,
    float: Json -> Conversion<Float>)

  /** The normalised record `validate_message` returns; its fields are, in this
      order, the five columns of a `sensor_readings` row. */
  datatype Reading = Reading(
    deviceId: string,
    timestamp: Timestamp,
    temperature: real,
    humidity: real,
    processedAt: Timestamp)

  /** A Pub/Sub message handle, identified by its id. */
  type MessageId = nat

  /** The two terminal calls on a message handle. */
  datatype Disposition = Acked | Nacked

  /** One terminal call, `ack()` or `nack()`, made on the message `id`. */
  datatype Event = Event(id: MessageId, disposition: Disposition)

  /** What the callback puts on the intake queue: the message and its record. */
  datatype Item = Item(id: MessageId, reading: Reading)
}
