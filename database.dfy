/**
 * `YuDatabase`: the link store object. It holds the database contents it
 * talks to (the `link`, `block` and `access_log` tables), the lazily opened
 * connection and the configured minimum short-hash length. Queries are the
 * functions of LinkStore applied to the tables; the operations that change
 * the tables or the connection are methods.
 */
module Database {
  import opened Common
  import opened LinkStore

  /** The default minimum short-hash length. */
  const DEFAULT_MIN_URL_LENGTH: nat := 4

  /**
   * `_set_min_url_lenth`: the configured `min_url_length` when it is at
   * least 1; otherwise (missing option, 0, negative) the default 4.
   */
  function MinUrlLength(configured: Option<int>): (n: nat)
    ensures n >= 1
    ensures configured.Some? && configured.value >= 1 ==> n == configured.value
    ensures configured.None? || configured.value < 1 ==> n == DEFAULT_MIN_URL_LENGTH
  {
    if configured.Some? && configured.value >= 1 then configured.value else DEFAULT_MIN_URL_LENGTH
  }

  class YuDatabase {
    const schema: Schema
    var minUrlLength: nat
    var links: seq<Link>
    var blocks: seq<Block>
    var accessLog: seq<nat>
    /** `_conn`: the connection taken from the pool, or None. */
    var conn: Option<nat>
    /** How many times a connection was taken from the pool. */
    ghost var opens: nat

    ghost predicate Valid()
      reads this
    {
      minUrlLength >= 1 && TableValid(links) && BlocksValid(links, blocks)
    }

    /**
     * `__init__`: no connection yet and the minimum length from the
     * configuration; the tables are the contents of the database it talks to.
     */
    constructor (schema: Schema, configured: Option<int>, links: seq<Link>, blocks: seq<Block>, accessLog: seq<nat>)
      requires TableValid(links) && BlocksValid(links, blocks)
      ensures Valid()
      ensures this.schema == schema && this.links == links && this.blocks == blocks && this.accessLog == accessLog
      ensures conn == None && opens == 0
      ensures minUrlLength == MinUrlLength(configured)
    {
      this.schema := schema;
      this.links := links;
      this.blocks := blocks;
      this.accessLog := accessLog;
      conn := None;
      opens := 0;
      minUrlLength := MinUrlLength(configured);
    }

    /**
     * `_set_min_url_lenth`, re-reading the configuration option: a present
     * option replaces the minimum (falling back to 4 below 1); a missing one
     * keeps the current minimum.
     */
    method SetMinUrlLength(configured: Option<int>)
      requires Valid()
      modifies this`minUrlLength
      ensures Valid()
      ensures configured.Some? ==> minUrlLength == MinUrlLength(configured)
      ensures configured.None? ==> minUrlLength == old(minUrlLength)
    {
      if configured.Some? {
        minUrlLength := MinUrlLength(configured);
      }
    }

    /**
     * `_get_cursor`: takes a connection from the pool only when there is
     * none; an existing connection is reused. `pooled` is what the pool hands
     * out. The result is the connection the cursor belongs to.
     */
    method GetCursor(pooled: nat) returns (c: nat)
      requires Valid()
      modifies this`conn, this`opens
      ensures Valid()
      ensures old(conn).Some? ==> conn == old(conn) && opens == old(opens)
      ensures old(conn).None? ==> conn == Some(pooled) && opens == old(opens) + 1
      ensures conn == Some(c)
    {
      if conn.None? {
        conn := Some(pooled);
        opens := opens + 1;
      }
      c := conn.value;
    }

    /** `close`: drops the connection; an error while closing is swallowed. */
    method Close()
      requires Valid()
      modifies this`conn
      ensures Valid()
      ensures conn == None
    {
      conn := None;
    }

    /**
     * `add_link_to_db`: tries the prefixes of `urlHash` from the minimum
     * length up to, but not including, its full length, and stops at the first
     * insert that succeeds, at a "key 2" duplicate (returning the stored short
     * hash), at a "key 1" duplicate (None) or at a non-duplicate error
     * (YuDatabaseError); other duplicates move on to the next prefix.
     */
    method AddLinkToDb(urlHash: string, link: string, failing: set<nat>, rereadFails: bool)
      returns (r: DbResult<Option<string>>)
      requires Valid()
      modifies this`links
      ensures Valid()
      ensures (r, links) == Allocate(old(links), schema, urlHash, link, minUrlLength, failing, rereadFails)
    {
      var table := links;
      var i := minUrlLength;
      ghost var spec := Allocate(table, schema, urlHash, link, i, failing, rereadFails);
      // Try the prefixes from the minimum length on while the INSERT meets a
      // duplicate that is neither key 1 nor key 2.
      var outcome := DupOther;
      while i < |urlHash|
        invariant minUrlLength <= i
        invariant outcome == DupOther
        invariant links == table
        invariant spec == Allocate(table, schema, urlHash, link, i, failing, rereadFails)
        decreases |urlHash| - i
      {
        outcome := InsertOutcomeOf(table, schema, urlHash[..i], urlHash, i in failing);
        if outcome != DupOther {
          break;
        }
        AllocateSkips(table, schema, urlHash, link, i, failing, rereadFails);
        i := i + 1;
      }
      AllocateStops(table, schema, urlHash, link, i, failing, rereadFails);
      if i >= |urlHash| || outcome == DupKey1 {
        r := Value(None);
      } else if outcome == Ok {
        InsertedRowKeepsValid(table, blocks, schema, urlHash, link, i, i in failing);
        links := table + [Link(urlHash[..i], urlHash, link)];
        r := Value(Some(urlHash[..i]));
      } else if outcome == DupKey2 {
        r := GetShortForHash(table, urlHash, rereadFails);
      } else {
        r := DatabaseError;
      }
    }

    /** `add_logentry_to_database`: logs one access; a failing insert is swallowed. */
    method AddLogEntry(short: string, fault: bool)
      requires Valid()
      modifies this`accessLog
      ensures Valid()
      ensures accessLog == LogAccess(links, old(accessLog), short, fault)
      ensures Redirects(links, accessLog, short) ==
                Redirects(links, old(accessLog), short) + (if !fault && Taken(links, ShortColumn, short) then 1 else 0)
    {
      LogAccessCounts(links, accessLog, short, fault);
      accessLog := LogAccess(links, accessLog, short, fault);
      assert minUrlLength == old(minUrlLength) && links == old(links) && blocks == old(blocks);
    }

    /**
     * `add_blockentry`: marks a link as blocked, stamped with the server time
     * `now`; a failing insert is swallowed. The values are bound as query
     * parameters here (BlockLinkAsWritten is the statement as spliced).
     */
    method AddBlockEntry(short: string, comment: string, now: string, fault: bool)
      requires Valid()
      modifies this`blocks
      ensures Valid()
      ensures blocks == BlockLink(links, old(blocks), short, comment, now, fault)
    {
      BlockLinkBlocks(links, blocks, short, comment, now, fault);
      blocks := BlockLink(links, blocks, short, comment, now, fault);
    }
  }
}
