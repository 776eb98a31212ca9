/**
 * The connection pool that pings every connection before handing it out.
 * The queue itself, the ping and the invalidation belong to the pool library
 * and the driver; they are represented by the wrapper's raw connection, the
 * ping's outcome (a parameter) and the wrapper's record of invalidations.
 */
module Pool {
  import opened Common
  import SafeDb

  /** What `connection.connection.ping()` does: nothing, or raise OperationalError with a code. */
  datatype PingResult = PingOk | PingFails(code: int)

  /** How a checkout ends. */
  datatype Checkout = Untouched | Reestablished(code: int) | Propagated(code: int) | AttributeErrorRaised

  predicate GoneOrLost(code: int)
  {
    code == SafeDb.SERVER_GONE_ERROR || code == SafeDb.SERVER_LOST
  }

  /**
   * The decision `do_get` takes. A missing wrapper or raw connection counts
   * as a gone server. A gone/lost code leads to invalidation and a new
   * connection, which fails with AttributeError when there is no wrapper to
   * invalidate; any other code propagates.
   */
  function CheckoutDecision(hasWrapper: bool, hasRaw: bool, ping: PingResult): (d: Checkout)
    ensures d == Untouched <==> hasWrapper && hasRaw && ping == PingOk
    ensures d == AttributeErrorRaised <==> !hasWrapper
    ensures d.Propagated? <==> hasWrapper && hasRaw && ping.PingFails? && !GoneOrLost(ping.code)
    ensures d.Reestablished? <==> hasWrapper && (!hasRaw || (ping.PingFails? && GoneOrLost(ping.code)))
    ensures d.Reestablished? && !hasRaw ==> d.code == SafeDb.SERVER_GONE_ERROR
    ensures d.Reestablished? && hasRaw ==> d.code == ping.code
    ensures d.Propagated? ==> d.code == ping.code
  {
    var failure := if !hasWrapper || !hasRaw then Some(SafeDb.SERVER_GONE_ERROR)
                   else if ping.PingFails? then Some(ping.code)
                   else None;
    if failure.None? then Untouched
    else if GoneOrLost(failure.value) then
      (if hasWrapper then Reestablished(failure.value) else AttributeErrorRaised)
    else Propagated(failure.value)
  }

  /** The pool's wrapper around a raw driver connection. */
  class ConnectionRecord {
    /** `connection.connection`: the raw connection, None once invalidated. */
    var raw: Option<nat>
    /** The error codes `invalidate` was called with. */
    var invalidations: seq<int>
    /** How many raw connections were obtained through `get_connection`. */
    var reconnects: nat

    constructor (raw: Option<nat>)
      ensures this.raw == raw && invalidations == [] && reconnects == 0
    {
      this.raw := raw;
      invalidations := [];
      reconnects := 0;
    }

    method Invalidate(code: int)
      modifies this`raw, this`invalidations
      ensures raw == None && invalidations == old(invalidations) + [code]
    {
      raw := None;
      invalidations := invalidations + [code];
    }

    method GetConnection(newRaw: nat)
      modifies this`raw, this`reconnects
      ensures raw == Some(newRaw) && reconnects == old(reconnects) + 1
    {
      raw := Some(newRaw);
      reconnects := reconnects + 1;
    }
  }

  /** The configuration values the pool is built from. */
  datatype DbConfig = DbConfig(user: string, password: string, host: string, port: int, database: string,
                               poolSize: int, maxOverflow: int)

  /** `ConnectionCreator`: the connection settings taken from the configuration. */
  datatype ConnectionCreator = ConnectionCreator(user: string, passwd: string, hostname: string, port: int, database: string)

  class FreshConnectionQueuePool {
    const creator: ConnectionCreator
    const poolSize: int
    const maxOverflow: int

    /** `factor_database_connection_pool(config)` */
    constructor (config: DbConfig)
      ensures creator == ConnectionCreator(config.user, config.password, config.host, config.port, config.database)
      ensures poolSize == config.poolSize && maxOverflow == config.maxOverflow
    {
      creator := ConnectionCreator(config.user, config.password, config.host, config.port, config.database);
      poolSize := config.poolSize;
      maxOverflow := config.maxOverflow;
    }

    /**
     * `_ping_connection`: the code of the OperationalError it raises, if any;
     * a missing wrapper or raw connection raises SERVER_GONE_ERROR without a
     * ping.
     */
    method PingConnection(record: ConnectionRecord?, ping: PingResult) returns (failure: Option<int>)
      ensures record == null || record.raw.None? ==> failure == Some(SafeDb.SERVER_GONE_ERROR)
      ensures record != null && record.raw.Some? ==> (failure.None? <==> ping == PingOk)
      ensures record != null && record.raw.Some? && failure.Some? ==> failure.value == ping.code
    {
      if record != null && record.raw.Some? {
        failure := if ping.PingFails? then Some(ping.code) else None;
      } else {
        failure := Some(SafeDb.SERVER_GONE_ERROR);
      }
    }

    /** `_establish_new_connection`: invalidate the wrapper with the error, then get a new raw connection. */
    method EstablishNewConnection(record: ConnectionRecord, code: int, newRaw: nat)
      modifies record
      ensures record.raw == Some(newRaw)
      ensures record.invalidations == old(record.invalidations) + [code]
      ensures record.reconnects == old(record.reconnects) + 1
    {
      record.Invalidate(code);
      record.GetConnection(newRaw);
    }

    /**
     * `do_get`: the wrapper the queue hands out (`record`, possibly None) is
     * pinged. A good connection is returned untouched; a gone or lost one is
     * invalidated and replaced by `newRaw` exactly once, with no second ping;
     * any other error propagates and leaves the wrapper as it was.
     */
    method DoGet(record: ConnectionRecord?, ping: PingResult, newRaw: nat) returns (d: Checkout)
      modifies record
      ensures d == CheckoutDecision(record != null, record != null && old(record.raw).Some?, ping)
      ensures record != null && !d.Reestablished? ==>
        record.raw == old(record.raw) && record.invalidations == old(record.invalidations)
        && record.reconnects == old(record.reconnects)
      ensures record != null && d.Reestablished? ==>
        record.raw == Some(newRaw) && record.invalidations == old(record.invalidations) + [d.code]
        && record.reconnects == old(record.reconnects) + 1
    {
      var failure := PingConnection(record, ping);
      if failure.None? {
        d := Untouched;
      } else if GoneOrLost(failure.value) {
        if record == null {
          d := AttributeErrorRaised;
        } else {
          EstablishNewConnection(record, failure.value, newRaw);
          d := Reestablished(failure.value);
        }
      } else {
        d := Propagated(failure.value);
      }
    }
  }
}
