/**
 * The reconnect-and-retry wrappers around the MySQL driver: a connection
 * that remembers the arguments it was opened with and can reconnect with
 * them, and a cursor that answers "server gone" and "server lost" errors by
 * reconnecting and sending the same statement again, at most as many times
 * over its whole life as its retry budget allows.
 *
 * The server is represented by the answers it will give: `pending` holds the
 * answers to the next statements, `connects` the answers to the next
 * connection attempts; when either runs out the server answers with success.
 */
module SafeDb {
  import opened Common

  const SERVER_GONE_ERROR: int := 2006
  const SERVER_LOST: int := 2013
  const DEFAULT_RETRY_COUNT: int := 3

  /** The server's answer to a statement or to a connection attempt: success, or an error with its `args`. */
  datatype Reply = Done | Raised(args: seq<int>)

  /** How `execute` ends: normally, by re-raising the statement's error, or by the error of a failed reconnect. */
  datatype ExecResult = Executed | Reraised(args: seq<int>) | ReconnectFailed(args: seq<int>)

  datatype Statement = Execute(query: string, args: seq<PyValue>) | ExecuteMany(query: string, rows: seq<seq<PyValue>>)

  /** The positional and keyword arguments a connection was opened with. */
  datatype Arguments = Arguments(args: seq<PyValue>, kwargs: map<string, PyValue>)

  datatype CursorClass = SafeCursorClass | PlainCursorClass

  /** `e.args and e.args[0] in (SERVER_GONE_ERROR, SERVER_LOST)` */
  predicate Retriable(args: seq<int>)
  {
    |args| > 0 && (args[0] == SERVER_GONE_ERROR || args[0] == SERVER_LOST)
  }

  function Head(rs: seq<Reply>): Reply
  {
    if rs == [] then Done else rs[0]
  }

  function Tail(rs: seq<Reply>): seq<Reply>
  {
    if rs == [] then [] else rs[1..]
  }

  function Repeat<T>(x: T, n: nat): (r: seq<T>)
    ensures |r| == n && forall i :: 0 <= i < n ==> r[i] == x
  {
    if n == 0 then [] else [x] + Repeat(x, n - 1)
  }

  /**
   * One `execute` call: the result, how many times the statement was sent,
   * how many reconnects were made, and the server answers left afterwards.
   */
  datatype Trace = Trace(result: ExecResult, sends: nat, reconnects: nat, pending: seq<Reply>, connects: seq<Reply>)

  /** What `execute` does with retry budget `retry` against the given server answers. */
  function RunSpec(pending: seq<Reply>, connects: seq<Reply>, retry: int): (t: Trace)
    ensures 1 <= t.sends && t.reconnects <= t.sends
    decreases if retry > 0 then retry else 0
  {
    match Head(pending)
    case Done => Trace(Executed, 1, 0, Tail(pending), connects)
    case Raised(a) =>
      if Retriable(a) && retry > 0 then
        match Head(connects)
        case Raised(c) => Trace(ReconnectFailed(c), 1, 1, Tail(pending), Tail(connects))
        case Done =>
          var t := RunSpec(Tail(pending), Tail(connects), retry - 1);
          t.(sends := t.sends + 1, reconnects := t.reconnects + 1)
      else Trace(Reraised(a), 1, 0, Tail(pending), connects)
  }

  /**
   * The budget: one call reconnects at most `retry` times (never when the
   * budget is 0 or less); the statement is sent once more than the number of
   * successful reconnects; a gone/lost error is passed on only once the
   * budget is used up; and any other error is passed on unchanged.
   */
  lemma {:induction false} RunSpecBudget(pending: seq<Reply>, connects: seq<Reply>, retry: int)
    ensures var t := RunSpec(pending, connects, retry);
      && t.reconnects <= (if retry > 0 then retry else 0)
      && t.sends == t.reconnects + (if t.result.ReconnectFailed? then 0 else 1)
      && (t.result.Reraised? && Retriable(t.result.args) ==> t.reconnects == (if retry > 0 then retry else 0))
      && (t.result.Reraised? ==> exists i :: 0 <= i < |pending| && pending[i] == Raised(t.result.args))
    decreases if retry > 0 then retry else 0
  {
    var h := Head(pending);
    if h.Raised? && Retriable(h.args) && retry > 0 && Head(connects).Done? {
      RunSpecBudget(Tail(pending), Tail(connects), retry - 1);
      var t := RunSpec(Tail(pending), Tail(connects), retry - 1);
      if t.result.Reraised? {
        var i :| 0 <= i < |Tail(pending)| && Tail(pending)[i] == Raised(t.result.args);
        assert pending[i + 1] == Raised(t.result.args);
      }
    }
  }

  /** An error other than gone/lost is re-raised at once: one send, no reconnect. */
  lemma OtherErrorReraised(pending: seq<Reply>, connects: seq<Reply>, retry: int)
    requires pending != [] && pending[0].Raised? && !Retriable(pending[0].args)
    ensures RunSpec(pending, connects, retry) == Trace(Reraised(pending[0].args), 1, 0, pending[1..], connects)
  {
  }

  /**
   * Exhaustion: when the server keeps answering gone/lost and every
   * reconnect succeeds, a budget of `retry` sends the statement `retry + 1`
   * times, reconnects `retry` times, and re-raises the last error.
   */
  lemma {:induction false} RunSpecExhausted(pending: seq<Reply>, connects: seq<Reply>, retry: nat)
    requires |pending| > retry
    requires forall i :: 0 <= i <= retry ==> pending[i].Raised? && Retriable(pending[i].args)
    requires forall i :: 0 <= i < |connects| ==> connects[i] == Done
    ensures var t := RunSpec(pending, connects, retry);
      t.result == Reraised(pending[retry].args) && t.sends == retry + 1 && t.reconnects == retry
    decreases retry
  {
    if retry > 0 {
      assert Head(connects) == Done;
      var rest := Tail(connects);
      assert forall i :: 0 <= i < |rest| ==> rest[i] == connects[i + 1];
      assert forall i :: 0 <= i <= retry - 1 ==> pending[1..][i] == pending[i + 1];
      RunSpecExhausted(pending[1..], rest, retry - 1);
    }
  }

  /**
   * Recovery: `k <= retry` gone/lost answers followed by success, with every
   * reconnect succeeding, end normally after `k` reconnects and `k + 1` sends.
   */
  lemma {:induction false} RunSpecRecovers(pending: seq<Reply>, connects: seq<Reply>, retry: int, k: nat)
    requires k <= retry
    requires forall i :: 0 <= i < k && i < |pending| ==> pending[i].Raised? && Retriable(pending[i].args)
    requires k <= |pending| && (k < |pending| ==> pending[k] == Done)
    requires forall i :: 0 <= i < |connects| ==> connects[i] == Done
    ensures var t := RunSpec(pending, connects, retry);
      t.result == Executed && t.sends == k + 1 && t.reconnects == k
    decreases k
  {
    if k > 0 {
      var rest := Tail(connects);
      assert forall i :: 0 <= i < |rest| ==> rest[i] == connects[i + 1];
      assert forall i :: 0 <= i < |pending| - 1 ==> pending[1..][i] == pending[i + 1];
      RunSpecRecovers(pending[1..], rest, retry - 1, k - 1);
    }
  }

  class SafeMySQLConnection {
    /** The arguments stored for `reconnect`; the 'logger' keyword is no longer among them. */
    const arguments: Arguments
    const logger: PyValue
    /** The cursor class a `cursor()` call without one uses. */
    const cursorClass: CursorClass
    var pending: seq<Reply>
    var connects: seq<Reply>
    /** The statements sent to the server, in order. */
    var sent: seq<Statement>
    /** The arguments of every connection set-up (the driver's `__init__`), in order. */
    var inits: seq<Arguments>
    var closes: nat
    var warnings: nat

    /**
     * `__init__`: the stored arguments and the keywords share one dictionary,
     * so removing 'logger' from the keywords removes it from the stored
     * arguments too; the driver is then set up with the remaining arguments.
     */
    constructor (args: seq<PyValue>, kwargs: map<string, PyValue>, cursorClass: CursorClass,
                 pending: seq<Reply>, connects: seq<Reply>)
      ensures arguments == Arguments(args, kwargs - {"logger"})
      ensures "logger" !in arguments.kwargs
      ensures logger == if "logger" in kwargs then kwargs["logger"] else PyNone
      ensures this.cursorClass == cursorClass
      ensures this.pending == pending && this.connects == connects
      ensures sent == [] && inits == [arguments] && closes == 0 && warnings == 0
    {
      arguments := Arguments(args, kwargs - {"logger"});
      logger := if "logger" in kwargs then kwargs["logger"] else PyNone;
      this.cursorClass := cursorClass;
      this.pending := pending;
      this.connects := connects;
      sent := [];
      inits := [Arguments(args, kwargs - {"logger"})];
      closes := 0;
      warnings := 0;
    }

    /** The driver's own `Cursor.execute`: the statement goes to the server and gets its next answer. */
    method Send(stmt: Statement) returns (reply: Reply)
      modifies this`pending, this`sent
      ensures reply == Head(old(pending)) && pending == Tail(old(pending))
      ensures sent == old(sent) + [stmt]
    {
      reply := Head(pending);
      pending := Tail(pending);
      sent := sent + [stmt];
    }

    /**
     * `reconnect`: closes the connection, logs a warning when there is a
     * logger, and sets the driver up again with the stored arguments; the
     * result is the error of that set-up, if it fails.
     */
    method Reconnect() returns (failure: Option<seq<int>>)
      modifies this`closes, this`warnings, this`inits, this`connects
      ensures closes == old(closes) + 1
      ensures inits == old(inits) + [arguments]
      ensures warnings == old(warnings) + (if Truthy(logger) then 1 else 0)
      ensures connects == Tail(old(connects))
      ensures failure == (if Head(old(connects)).Raised? then Some(Head(old(connects)).args) else None)
    {
      closes := closes + 1;
      if Truthy(logger) {
        warnings := warnings + 1;
      }
      inits := inits + [arguments];
      var answer := Head(connects);
      connects := Tail(connects);
      failure := if answer.Raised? then Some(answer.args) else None;
    }

    /**
     * `cursor(cursorclass, retry_count)`: the requested class or else the
     * connection's; the retry count is passed on only to a SafeCursor, and a
     * plain cursor never retries.
     */
    method NewCursor(requested: Option<CursorClass>, retryCount: int := DEFAULT_RETRY_COUNT) returns (c: SafeCursor)
      ensures fresh(c) && c.connection == this && c.Valid()
      ensures c.safe == ((if requested.Some? then requested.value else cursorClass) == SafeCursorClass)
      ensures c.safe ==> c.retryCount == retryCount
      ensures !c.safe ==> c.retryCount == 0
    {
      var cc := if requested.Some? then requested.value else cursorClass;
      if cc == SafeCursorClass {
        c := new SafeCursor(this, retryCount);
      } else {
        c := new SafeCursor.Plain(this);
      }
    }
  }

  class SafeCursor {
    const connection: SafeMySQLConnection
    /** False for a driver cursor of another class, which never retries. */
    const safe: bool
    /** `_conn_retry_count` */
    var retryCount: int
    ghost const initialRetry: int
    /** Reconnects made by this cursor so far. */
    ghost var reconnects: nat

    /**
     * The budget only goes down, one step per reconnect, and never below 0
     * once it started above 0; a cursor never reconnects more often over its
     * whole life than its initial budget.
     */
    ghost predicate Valid()
      reads this
    {
      && (!safe ==> initialRetry == 0)
      && (if initialRetry > 0 then 0 <= retryCount && reconnects + retryCount == initialRetry
          else retryCount == initialRetry && reconnects == 0)
    }

    /** `SafeCursor(connection, retry_count=3)` */
    constructor (connection: SafeMySQLConnection, retryCount: int := DEFAULT_RETRY_COUNT)
      ensures this.connection == connection && safe && this.retryCount == retryCount
      ensures initialRetry == retryCount && reconnects == 0 && Valid()
    {
      this.connection := connection;
      safe := true;
      this.retryCount := retryCount;
      initialRetry := retryCount;
      reconnects := 0;
    }

    /** A driver cursor of another class. */
    constructor Plain(connection: SafeMySQLConnection)
      ensures this.connection == connection && !safe && retryCount == 0
      ensures initialRetry == 0 && reconnects == 0 && Valid()
    {
      this.connection := connection;
      safe := false;
      retryCount := 0;
      initialRetry := 0;
      reconnects := 0;
    }

    /**
     * The body shared by `execute` and `executemany`: send the statement;
     * on a gone/lost error with budget left, spend one unit, reconnect and
     * send the same statement again; pass any other error on unchanged.
     */
    method Run(stmt: Statement) returns (res: ExecResult)
      requires Valid()
      modifies this, connection
      decreases if retryCount > 0 then retryCount else 0
      ensures Valid()
      ensures var t := RunSpec(old(connection.pending), old(connection.connects), old(retryCount));
        && res == t.result
        && retryCount == old(retryCount) - t.reconnects
        && reconnects == old(reconnects) + t.reconnects
        && connection.pending == t.pending && connection.connects == t.connects
        && connection.sent == old(connection.sent) + Repeat(stmt, t.sends)
        && connection.closes == old(connection.closes) + t.reconnects
        && connection.inits == old(connection.inits) + Repeat(connection.arguments, t.reconnects)
    {
      var reply := connection.Send(stmt);
      if reply.Raised? && Retriable(reply.args) && retryCount > 0 {
        retryCount := retryCount - 1;
        reconnects := reconnects + 1;
        var failure := connection.Reconnect();
        if failure.Some? {
          res := ReconnectFailed(failure.value);
        } else {
          res := Run(stmt);
        }
      } else if reply.Raised? {
        res := Reraised(reply.args);
      } else {
        res := Executed;
      }
    }

    /** `execute(query, args)` */
    method ExecuteQuery(query: string, args: seq<PyValue>) returns (res: ExecResult)
      requires Valid()
      modifies this, connection
      ensures Valid()
      ensures var t := RunSpec(old(connection.pending), old(connection.connects), old(retryCount));
        && res == t.result && retryCount == old(retryCount) - t.reconnects
        && connection.sent == old(connection.sent) + Repeat(Execute(query, args), t.sends)
    {
      res := Run(Execute(query, args));
    }

    /** `executemany(query, args)` */
    method ExecuteManyQuery(query: string, rows: seq<seq<PyValue>>) returns (res: ExecResult)
      requires Valid()
      modifies this, connection
      ensures Valid()
      ensures var t := RunSpec(old(connection.pending), old(connection.connects), old(retryCount));
        && res == t.result && retryCount == old(retryCount) - t.reconnects
        && connection.sent == old(connection.sent) + Repeat(ExecuteMany(query, rows), t.sends)
    {
      res := Run(ExecuteMany(query, rows));
    }
  }
}
