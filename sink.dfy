/** `Databasehandler`: the persistence sink. It owns one MySQL connection,
    reconnects at most once per batch, and reports each batch insert as a boolean. */
module Sink {
  import opened Telemetry

  /** What `self.connection` holds: nothing (`None`), a connection whose
      `is_connected()` is true, or one whose `is_connected()` is false. */
  datatype Connection = Absent | Connected | Disconnected

  class DatabaseHandler {
    var connection: Connection
    /** The number of calls to `connect()` so far. */
    ghost var connectCalls: nat
    /** The number of entries into the write attempt (`cursor()` onwards) so far. */
    ghost var writeAttempts: nat
    /** The rows committed to `sensor_readings` so far, in commit order. */
    ghost var committed: seq<Reading>

    /** `__init__`: start with no connection and call `connect()` once; `outcome`
        is the connection that attempt leaves. */
    constructor (outcome: Connection)
      ensures connection == outcome
      ensures connectCalls == 1 && writeAttempts == 0 && committed == []
    {
      connection := Absent;
      connectCalls := 0;
      writeAttempts := 0;
      committed := [];
      new;
      Connect(outcome);
    }

    /** `connect()`: `mysql.connector.connect` either returns a connection
        (live or not, as `outcome` says) or raises `Error`, which leaves `Absent`. */
    method Connect(outcome: Connection)
      modifies this
      ensures connection == outcome
      ensures connectCalls == old(connectCalls) + 1
      ensures writeAttempts == old(writeAttempts) && committed == old(committed)
    {
      connection := outcome;
      connectCalls := connectCalls + 1;
    }

    /** `insert_batch(values)`. `reconnect` is the connection a `connect()` call
        would leave; `driverOk` says whether `executemany` and `commit` succeed on a
        live connection. On a connection that is present but not live the driver
        raises `Error`, which is caught and reported as failure. */
    method InsertBatch(values: seq<Reading>, reconnect: Connection, driverOk: bool) returns (ok: bool)
      modifies this
      // at most one reconnect, and only when the connection is absent or dropped
      ensures connectCalls == old(connectCalls) + (if old(connection) == Connected then 0 else 1)
      ensures connection == (if old(connection) == Connected then Connected else reconnect)
      // no write is attempted when the reconnect leaves no connection
      ensures writeAttempts == old(writeAttempts) + (if connection == Absent then 0 else 1)
      ensures ok <==> connection == Connected && driverOk
      // the batch is committed whole or not at all
      ensures committed == (if ok then old(committed) + values else old(committed))
    {
      if connection != Connected {
        Connect(reconnect);
        if connection == Absent {
          return false;
        }
      }
      writeAttempts := writeAttempts + 1;
      if connection == Connected && driverOk {
        committed := committed + values;
        ok := true;
      } else {
        ok := false;
      }
    }
  }
}
