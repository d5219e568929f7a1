/** The subscriber `callback` and the intake queue between it and the worker.
    The callback decodes and validates each message; a valid one is queued with
    its record and gets no terminal call yet, an invalid one is acked and dropped,
    and one that fails in any other way is nacked. */
module Intake {
  import opened Telemetry
  import opened Validator

  /** The outcome of `json.loads(message.data.decode("utf-8"))`: a payload, or a
      `ValueError` (a `UnicodeDecodeError` or a `json.JSONDecodeError`). */
  datatype Decoded = Decoded(data: Payload) | Undecodable

  /** What the callback does with a message. */
  datatype Action = Enqueue(reading: Reading) | Terminal(disposition: Disposition)

  /** The callback's decision for one message validated at time `now`. */
  function Dispose(decoded: Decoded, lib: Coercions, now: Timestamp): (a: Action)
    ensures a.Enqueue? <==> decoded.Decoded? && Acceptable(decoded.data, lib)
    ensures a.Enqueue? ==> ReadingOk(a.reading) && Carries(decoded.data, lib, a.reading) && a.reading.processedAt == now
    // malformed or invalid payloads are acked so that they are not redelivered
    ensures a == Terminal(Acked) <==>
      decoded.Undecodable? || (!Acceptable(decoded.data, lib) && !Escapes(decoded.data, lib))
    // an exception escaping the validator is nacked, so the message is redelivered
    ensures a == Terminal(Nacked) <==> decoded.Decoded? && Escapes(decoded.data, lib)
  {
    match decoded
    case Undecodable => Terminal(Acked)
    case Decoded(data) =>
      match Validate(data, lib, now)
      case Valid(reading) => Enqueue(reading)
      case Invalid(_) => Terminal(Acked)
      case Unexpected => Terminal(Nacked)
  }

  /** Any missing or out-of-range field makes the callback ack and drop the message. */
  lemma InvalidPayloadDropped(data: Payload, lib: Coercions, now: Timestamp)
    requires !AllPresent(data) ||
      (ReachesRangeChecks(data, lib) &&
        (!Within(lib.float(data[TemperatureField]).value, MinTemperature, MaxTemperature) ||
         !Within(lib.float(data[HumidityField]).value, MinHumidity, MaxHumidity)))
    ensures Dispose(Decoded(data), lib, now) == Terminal(Acked)
  {
  }

  /** A conversion the validator catches (`ValueError`, `TypeError`) makes the
      callback ack and drop the message. */
  lemma ConversionErrorAcked(data: Payload, lib: Coercions, now: Timestamp)
    requires ConversionRejected(data, lib)
    ensures Dispose(Decoded(data), lib, now) == Terminal(Acked)
  {
  }

  /** An exception the validator does not catch, such as the `OverflowError` of
      `float()` on an integer too large for a float, makes the callback nack the
      message: it is redelivered and fails the same way each time. */
  lemma EscapingErrorNacked(data: Payload, lib: Coercions, now: Timestamp)
    requires Escapes(data, lib)
    ensures Dispose(Decoded(data), lib, now) == Terminal(Nacked)
  {
  }

  /** The `queue.Queue` the callback fills and the worker drains, with the
      terminal calls the callback itself has made. */
  class IntakeQueue {
    var items: seq<Item>
    ghost var log: seq<Event>

    /** Only validated records are ever queued. */
    ghost predicate Valid()
      reads this
    {
      forall k :: 0 <= k < |items| ==> ReadingOk(items[k].reading)
    }

    constructor ()
      ensures Valid() && items == [] && log == []
    {
      items, log := [], [];
    }

    /** `callback(message)` for the message `id`: either `message_queue.put`, or
        `message.ack()` / `message.nack()`, never both. */
    method Callback(id: MessageId, decoded: Decoded, lib: Coercions, now: Timestamp)
      requires Valid()
      modifies this
      ensures Valid()
      ensures match Dispose(decoded, lib, now)
        case Enqueue(reading) => items == old(items) + [Item(id, reading)] && log == old(log)
        case Terminal(d) => items == old(items) && log == old(log) + [Event(id, d)]
    {
      var action := Dispose(decoded, lib, now);
      match action
      case Enqueue(reading) =>
        items := items + [Item(id, reading)];
      case Terminal(d) =>
        log := log + [Event(id, d)];
    }

    /** `queue.get(timeout=1)` with no concurrent producer: the oldest item, or
        none (`Empty`) when the queue is empty. */
    method Get() returns (item: Option<Item>)
      requires Valid()
      modifies this
      ensures Valid()
      ensures old(items) == [] ==> item == None && items == []
      ensures old(items) != [] ==> item == Some(old(items)[0]) && items == old(items)[1..]
      ensures item.Some? ==> ReadingOk(item.value.reading)
      ensures log == old(log)
    {
      if items == [] {
        item := None;
      } else {
        item := Some(items[0]);
        items := items[1..];
      }
    }
  }
}
