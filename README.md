# IoT telemetry consumer: validation, batching and acknowledgment

This project models the consumer side of a streaming telemetry pipeline
(`consumer/app.py`). Devices publish readings to a Pub/Sub topic. The
subscriber callback decodes and validates each message. A valid reading goes
onto an intake queue. A worker thread drains that queue into batches of at most
`BATCH_SIZE = 10` records. It flushes a batch to MySQL when the batch is full,
or when `BATCH_TIMEOUT = 5` seconds have passed since the last flush and the
batch is not empty. The worker then acks every message of the batch if the
insert succeeded, and nacks every message if it failed.

Modules:

- `Telemetry` (`telemetry.dfy`): shared values. These are decoded JSON
  payloads, Python floats (finite, infinite or NaN), the `Reading` record,
  message ids and ack/nack events. It also holds `Coercions`, which stands for
  the library functions the validator calls: `str()`,
  `dateutil.parser.isoparse` and `float()`.
- `Validator` (`validator.dfy`): `validate_message` as a function `Validate`.
  It checks presence (in list order), a non-empty device id, the three
  conversions, the temperature range, then the humidity range.
- `Sink` (`sink.dfy`): `Databasehandler` as a class. Its connection field is one
  of `Absent` (`None`), `Connected` or `Disconnected`. `connect()` and
  `insert_batch` take the outcome of the driver calls as parameters.
- `Worker` (`worker.dfy`): the `worker` loop. `Next` is one iteration as a
  function of the state and that iteration's inputs, and `Run` is a sequence of
  iterations. Lemmas cover the batch bounds, flush triggers, FIFO order,
  all-or-nothing acknowledgment and the accounting of every message handle. The
  class `BatchWorker` has `batch_messages`, `batch_data` and `last_flush_time`
  as fields. Its `Step` method is proved to compute `Next`.
- `Intake` (`intake.dfy`): the decision made by `callback` (`Dispose`), and a
  class for the intake queue with the callback's side effects and `queue.get`.

Every exception is a `ValueError` with a message in the source. The model uses
a `Reason` instead, one per check. An empty device id is raised inside the
`try` block, so its message reads as a type-conversion error. The model reports
it as `EmptyDeviceId`.

`Validate` distinguishes conversion failures the validator catches
(`ValueError`, `TypeError`) from other exceptions. The source's
`except (ValueError, TypeError)` does not catch the others. An example is the
`OverflowError` that `float()` raises on an integer too large to convert. Such
an exception escapes `validate_message`. The callback's `except Exception`
branch then nacks the message. The model gives this case the verdict
`Unexpected`, which the callback maps to `Nacked`. Treating every coercion
failure as an invalid field would ack instead. Because the failure is
deterministic, a nacked message of this kind is redelivered and fails again
each time.

## Model

| member | source | states |
|---|---|---|
| `Validator.FirstMissing` | consumer/app.py:79-84 | the result is the index of the first required field that is absent, with every earlier field present; none exactly when all are present |
| `Validator.Validate` | consumer/app.py:77-113 | accepts exactly the payloads where all four fields are present, the device id is non-empty, every conversion succeeds and both values lie in their closed ranges. An accepted record carries the converted input values, meets the range constraints and is stamped with the current time. A missing-field rejection happens exactly when a field is absent, and it names the first absent one. The empty-device-id rejection happens exactly when all fields are present and `str(device_id)` is empty. The temperature rejection happens exactly when the range checks are reached and the temperature is out of range. Each conversion rejection (timestamp, temperature, humidity) happens exactly when the conversions are reached, the earlier conversions succeeded and that one raised `ValueError` or `TypeError`. The verdict is `Unexpected` exactly when the first failing conversion raised another exception. The humidity rejection happens only after the temperature passed. Each range rejection carries the offending value |
| `Validator.MissingFieldReported` | consumer/app.py:79-84 | when field i is absent and all earlier ones are present, the rejection names field i |
| `Validator.RangeEndpointsAccepted` | consumer/app.py:100-105 | once the range checks are reached, a payload is accepted iff -50 <= temperature <= 100 and 0 <= humidity <= 100, so both endpoints are accepted |
| `Validator.NonFiniteRejected` | consumer/app.py:94-105 | a NaN or infinite temperature or humidity is always rejected |
| `Validator.SampleMessageAccepted` | tests/test_consumer.py:12-21 | the unit test's valid message is accepted with device id "test-1" and temperature 20.5 |
| `Validator.SampleMissingFieldRejected` | tests/test_consumer.py:23-26 | a message with only a device id is rejected for the missing timestamp |
| `Validator.SampleHotMessageRejected` | tests/test_consumer.py:28-36 | a temperature of 200 is rejected as out of range |
| `Sink.DatabaseHandler.constructor` | consumer/app.py:34-36 | a new handler has made one connect attempt and holds its outcome |
| `Sink.DatabaseHandler.Connect` | consumer/app.py:38-50 | the connection becomes the attempt's outcome (`Absent` when the driver raised) and one more attempt is counted |
| `Sink.DatabaseHandler.InsertBatch` | consumer/app.py:52-75 | makes exactly one connect attempt when the connection is absent or dropped, and none otherwise. It attempts no write if that attempt leaves no connection. It succeeds iff the connection is live and the driver succeeds. The batch is committed whole on success and not at all on failure, given an atomic driver |
| `Worker.FlushDue` | consumer/app.py:139-143 | none of its own: the flush condition `is_batch_full or is_timeout` with a non-empty batch, used by the `Next*` lemmas below |
| `Worker.Next` | consumer/app.py:120-157 | none of its own: one iteration of the loop, whose properties `NextKeepsInvariant`, `NextFlushesOnce`, `NextAppendsAtEnd`, `NextAllOrNothing` and `NextConserves` state, and which `BatchWorker.Step` is proved to compute |
| `Worker.Run` | consumer/app.py:120 | none of its own: the `while True` loop as iterations of `Next`, whose properties `RunKeepsInvariant`, `RunConserves` and `ExactlyOneTerminalCall` state |
| `Worker.Resolve` | consumer/app.py:147-153 | the events are one terminal call per message id, in batch order, all with the same disposition |
| `Worker.NextKeepsInvariant` | consumer/app.py:123-157 | one iteration keeps the two lists of equal length and the batch strictly below `BATCH_SIZE`. Every batch handed to the sink held 1 to `BATCH_SIZE` records, so an empty batch is never flushed |
| `Worker.NextFlushesOnce` | consumer/app.py:138-145 | an iteration hands exactly one batch to the sink when the batch is full or the timeout has elapsed with a non-empty batch, whichever triggers hold, and none otherwise. That batch is the old one with the new record at its end |
| `Worker.NextAppendsAtEnd` | consumer/app.py:123-136 | without a flush, the dequeued item goes to the end of both lists, the timer is unchanged and no terminal call is made |
| `Worker.NextAllOrNothing` | consumer/app.py:145-157 | on a flush, every message of the batch, in order and no other, is acked if the sink succeeded and nacked otherwise. Both lists are then empty and `last_flush_time` is the iteration's time |
| `Worker.NextConserves` | consumer/app.py:123-157 | the resolved ids followed by the ids still batched grow by exactly the dequeued id: no message is lost or duplicated |
| `Worker.RunKeepsInvariant` | consumer/app.py:120-157 | the batch invariant holds after any number of iterations |
| `Worker.RunConserves` | consumer/app.py:120-157 | after any iterations, the resolved ids followed by the batched ids are the old ones plus every dequeued id, in order |
| `Worker.InitialConserves` | consumer/app.py:116-157 | from the initial state, the resolved ids followed by the batched ids are exactly the dequeued ids |
| `Worker.ExactlyOneTerminalCall` | consumer/app.py:120-157 | with distinct message ids, every dequeued message has received exactly one terminal call or is still in the batch, never both. A message never dequeued has received none |
| `Worker.BurstAccumulates` | consumer/app.py:123-143 | fewer than `BATCH_SIZE` items dequeued before the timeout only accumulate, in arrival order |
| `Worker.BurstFlushesOnce` | consumer/app.py:138-145 | `BATCH_SIZE` items dequeued before the timeout cause exactly one flush of all of them, without waiting for the timer |
| `Worker.TrickleFlushesOnTimeout` | consumer/app.py:138-157 | one item followed by an empty dequeue at or after the timeout causes exactly one flush of size 1, resolved as the sink answered |
| `Worker.BatchWorker.constructor` | consumer/app.py:116-118 | the worker starts with empty lists and the timer at the start time |
| `Worker.BatchWorker.Step` | consumer/app.py:120-157 | one loop iteration yields exactly the state `Next` gives and keeps the batch invariant |
| `Worker.BatchWorker.Flush` | consumer/app.py:145-157 | the whole old batch goes to the sink. Every old batch message, in order, gets the one terminal call the sink's answer selects. Both lists are then empty and the timer equals the iteration's time |
| `Intake.Dispose` | consumer/app.py:193-204 | a message is enqueued, with its validated record, exactly when it decodes to an acceptable payload. It is nacked exactly when it decodes and the first failing conversion raises an exception the validator does not catch. It is acked exactly when it is undecodable, or neither acceptable nor such an escape |
| `Intake.ConversionErrorAcked` | consumer/app.py:89-98 | when the first failing conversion raises `ValueError` or `TypeError`, the message is acked and dropped |
| `Intake.EscapingErrorNacked` | consumer/app.py:89-98 | when the first failing conversion raises any other exception, the message is nacked |
| `Intake.InvalidPayloadDropped` | consumer/app.py:196-201 | a payload with a missing field, or an out-of-range temperature or humidity, is acked and dropped |
| `Intake.IntakeQueue.constructor` | consumer/app.py:173 | the queue starts empty, with no terminal calls made |
| `Intake.IntakeQueue.Callback` | consumer/app.py:193-204 | the callback either appends the message and its record to the queue, or makes one terminal call, never both. Only validated records are queued |
| `Intake.IntakeQueue.Get` | consumer/app.py:123-124 | a dequeue returns the oldest item and removes it, or returns nothing when the queue is empty |

## Left out

- `producer/app.py`: random value generation and publishing are outside this model's scope.
- Pub/Sub subscriber setup, `subscribe`, streaming-pull future handling, the
  daemon thread start and `main`'s startup connection loop with `time.sleep`
  (consumer/app.py:159-191, 206-216). These are transport plumbing and process
  start-up.
- Concurrency of `queue.Queue`. The worker's dequeue is an optional input per
  iteration. `Intake.IntakeQueue.Get` models it with no producer running at the
  same time, so the one-second blocking wait is not modelled.
- The MySQL driver (`mysql.connector.connect`, `is_connected`, `cursor`,
  `executemany`, `commit`). These are parameters: the connection a connect
  attempt leaves, and whether the write succeeds on a live connection. The
  model does not represent a connection dropping between calls on its own. It
  starts each call from whatever state the field holds.
- `Sink.DatabaseHandler.InsertBatch`: models only the `mysql.connector.Error`
  failures the source catches. Any other exception from the driver would end
  the worker thread and leave the batch unresolved. The model does not
  represent that.
- `Sink.DatabaseHandler.InsertBatch`: the all-or-nothing commit is assumed of
  the driver, which is a single boolean here. The source never calls
  `rollback()`, so a failure between `executemany` and `commit` leaves
  whatever the driver and server do with the open transaction.
- `Sink.DatabaseHandler.InsertBatch`: `writeAttempts` counts entries into the
  write attempt. On a dropped connection the source's `cursor()` already
  raises before `executemany` runs. The model does not tell these apart.
- `json.loads`, UTF-8 decoding, `str()`, `dateutil.parser.isoparse`, `float()`
  and `datetime.utcnow()`. These are parameters: a `Decoded` outcome, the
  `Coercions` functions and the `now` timestamp.
- A decoded JSON document that is not an object. `callback` passes
  `json.loads`'s result straight to `validate_message` (consumer/app.py:195-196).
  For `null`, a number or a boolean, the presence check `field not in data`
  raises `TypeError` outside the `try` (consumer/app.py:83). The callback nacks
  such a message, and it is redelivered again and again, like the
  `OverflowError` case. For a list or a string, `in` tests membership or
  substrings. If all four names pass, the indexing then raises `TypeError`
  inside the `try`, and the message is acked as invalid. `Decoded` holds only
  objects, so the model does not capture these cases.
- The clock: `time.time()` is an input of each iteration, and
  `Worker.BatchWorker.Step` takes `insert_batch`'s result as a boolean.
  `Sink.DatabaseHandler.InsertBatch` models that call separately. The two are
  not composed in one method.
- Logging and the `Config` environment reads. The two batch constants are
  `Worker.BatchSize` and `Worker.BatchTimeout`.
- Python floats are modelled as exact reals plus infinities and NaN. No
  floating-point rounding occurs in the checks, which only compare against
  integer bounds.
