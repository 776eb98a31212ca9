/**
 * The `link`, `block` and `access_log` tables of yaturl as values, the
 * queries YuDatabase runs against them, and the short-hash allocation that
 * `add_link_to_db` performs, written as a specification function.
 *
 * A row's `link_id` is its position in the table plus one (MySQL's
 * auto-increment starting at 1). The unique indexes on `link_shorthash` and
 * `link_hash` decide whether an INSERT succeeds; which key NUMBER the
 * server's duplicate-entry message names depends on the table schema, which
 * is a parameter here.
 */
module LinkStore {
  import opened Common

  /** One row of the `link` table: short hash, full hash, URL. */
  datatype Link = Link(short: string, full: string, url: string)

  /**
   * One row of the `block` table; `linkId` is NULL (None) when the short hash
   * given to `add_blockentry` named no link. `entryDate` is the time the
   * server stamped on the row when it was inserted.
   */
  datatype Block = Block(linkId: Option<nat>, entryDate: string, comment: string)

  /** What `is_hash_blocked` returns for a blocked link: link id, short hash, entry date and comment. */
  datatype BlockInfo = BlockInfo(linkId: nat, short: string, entryDate: string, comment: string)

  /**
   * The answer of a YuDatabase query: a value, or the YuDatabaseError raised
   * because the driver raised a DatabaseError.
   */
  datatype DbResult<+T> = Value(value: T) | DatabaseError

  /** The key a MySQL duplicate-entry message names: "... key 1", "... key 2", or another. */
  datatype KeyName = Key1 | Key2 | OtherKey

  /**
   * The part of the table schema that decides the text of a duplicate-entry
   * error: the key number of the unique short-hash index, that of the unique
   * full-hash index, and which of the two is reported when both clash.
   */
  datatype Schema = Schema(shortKey: KeyName, fullKey: KeyName, shortReportedFirst: bool)

  /** One INSERT attempt of `add_link_to_db`, as its exception handler tells them apart. */
  datatype InsertOutcome = Ok | DupKey2 | DupKey1 | DupOther | OtherError

  datatype Column = ShortColumn | FullColumn

  function Cell(l: Link, c: Column): string
  {
    match c
    case ShortColumn => l.short
    case FullColumn => l.full
  }

  ghost predicate Taken(links: seq<Link>, c: Column, key: string)
  {
    exists k :: 0 <= k < |links| && Cell(links[k], c) == key
  }

  /** The position of the first row whose column `c` holds `key` (a `... LIMIT 1` select). */
  function FirstRow(links: seq<Link>, c: Column, key: string): (r: Option<nat>)
    ensures r.None? <==> !Taken(links, c, key)
    ensures r.Some? ==> r.value < |links| && Cell(links[r.value], c) == key
    ensures r.Some? ==> forall k :: 0 <= k < r.value ==> Cell(links[k], c) != key
  {
    if links == [] then None
    else if Cell(links[0], c) == key then Some(0)
    else
      var rest := FirstRow(links[1..], c, key);
      assert forall k :: 1 <= k < |links| ==> links[k] == links[1..][k - 1];
      if rest.None? then None else Some(rest.value + 1)
  }

  /**
   * The table invariant the unique indexes and `add_link_to_db` keep: short
   * hashes are unique, full hashes are unique, and every short hash is a
   * non-empty proper prefix of its row's full hash.
   */
  ghost predicate TableValid(links: seq<Link>)
  {
    && (forall i, j :: 0 <= i < j < |links| ==> links[i].short != links[j].short)
    && (forall i, j :: 0 <= i < j < |links| ==> links[i].full != links[j].full)
    && (forall i :: 0 <= i < |links| ==>
          0 < |links[i].short| < |links[i].full| && links[i].full[..|links[i].short|] == links[i].short)
  }

  /** Every block names an existing link or none, and no link is blocked twice. */
  ghost predicate BlocksValid(links: seq<Link>, blocks: seq<Block>)
  {
    && (forall i :: 0 <= i < |blocks| && blocks[i].linkId.Some? ==> 1 <= blocks[i].linkId.value <= |links|)
    && (forall i, j :: 0 <= i < j < |blocks| && blocks[i].linkId.Some? ==> blocks[i].linkId != blocks[j].linkId)
  }

  // ---------------------------------------------------------------- lookups

  /** `get_short_for_hash_from_db`: the short hash stored for a full hash. */
  function GetShortForHash(links: seq<Link>, urlHash: string, fault: bool): (r: DbResult<Option<string>>)
    ensures fault <==> r == DatabaseError
    ensures !fault ==> (r.value.Some? <==> Taken(links, FullColumn, urlHash))
    ensures !fault && r.value.Some? ==>
      exists k :: 0 <= k < |links| && links[k].full == urlHash && links[k].short == r.value.value
  {
    if fault then DatabaseError
    else
      match FirstRow(links, FullColumn, urlHash)
      case None => Value(None)
      case Some(k) => Value(Some(links[k].short))
  }

  /** `get_link_from_db_by_complete_hash`: the URL stored for a full hash. */
  function GetLinkByFullHash(links: seq<Link>, urlHash: string, fault: bool): (r: DbResult<Option<string>>)
    ensures fault <==> r == DatabaseError
    ensures !fault ==> (r.value.Some? <==> Taken(links, FullColumn, urlHash))
    ensures !fault && r.value.Some? ==>
      exists k :: 0 <= k < |links| && links[k].full == urlHash && links[k].url == r.value.value
  {
    if fault then DatabaseError
    else
      match FirstRow(links, FullColumn, urlHash)
      case None => Value(None)
      case Some(k) => Value(Some(links[k].url))
  }

  /** `get_link_from_db`: the URL stored for a short hash. */
  function GetLinkFromDb(links: seq<Link>, short: string, fault: bool): (r: DbResult<Option<string>>)
    ensures fault <==> r == DatabaseError
    ensures !fault ==> (r.value.Some? <==> Taken(links, ShortColumn, short))
    ensures !fault && r.value.Some? ==>
      exists k :: 0 <= k < |links| && links[k].short == short && links[k].url == r.value.value
  {
    if fault then DatabaseError
    else
      match FirstRow(links, ShortColumn, short)
      case None => Value(None)
      case Some(k) => Value(Some(links[k].url))
  }

  /** `is_hash_in_db`: the link id of the row holding a full hash. */
  function IsHashInDb(links: seq<Link>, urlHash: string, fault: bool): (r: DbResult<Option<nat>>)
    ensures fault <==> r == DatabaseError
    ensures !fault ==> (r.value.Some? <==> Taken(links, FullColumn, urlHash))
    ensures !fault && r.value.Some? ==>
      1 <= r.value.value <= |links| && links[r.value.value - 1].full == urlHash
  {
    if fault then DatabaseError
    else
      match FirstRow(links, FullColumn, urlHash)
      case None => Value(None)
      case Some(k) => Value(Some(k + 1))
  }

  /** The position of the first block row of a link. */
  function FirstBlockOf(blocks: seq<Block>, linkId: nat): (r: Option<nat>)
    ensures r.None? <==> forall i :: 0 <= i < |blocks| ==> blocks[i].linkId != Some(linkId)
    ensures r.Some? ==> r.value < |blocks| && blocks[r.value].linkId == Some(linkId)
  {
    if blocks == [] then None
    else if blocks[0].linkId == Some(linkId) then Some(0)
    else
      var rest := FirstBlockOf(blocks[1..], linkId);
      assert forall i :: 1 <= i < |blocks| ==> blocks[i] == blocks[1..][i - 1];
      if rest.None? then None else Some(rest.value + 1)
  }

  /**
   * `is_hash_blocked`: block details of the link with this short hash. An
   * empty short hash gives None without running the query, so no database
   * error can occur for it.
   */
  function IsHashBlocked(links: seq<Link>, blocks: seq<Block>, short: string, fault: bool): (r: DbResult<Option<BlockInfo>>)
    ensures short == "" ==> r == Value(None)
    ensures short != "" ==> (fault <==> r == DatabaseError)
    ensures short != "" && !fault && !Taken(links, ShortColumn, short) ==> r == Value(None)
    ensures short != "" && !fault && Taken(links, ShortColumn, short) ==>
      var k := FirstRow(links, ShortColumn, short).value;
      (r.value.Some? <==> exists b :: 0 <= b < |blocks| && blocks[b].linkId == Some(k + 1))
    ensures r.Value? && r.value.Some? ==>
      r.value.value.short == short && 1 <= r.value.value.linkId <= |links| && links[r.value.value.linkId - 1].short == short
    ensures r.Value? && r.value.Some? ==>
      exists b :: 0 <= b < |blocks| && blocks[b].linkId == Some(r.value.value.linkId)
        && blocks[b].entryDate == r.value.value.entryDate && blocks[b].comment == r.value.value.comment
  {
    if short == "" then Value(None)
    else if fault then DatabaseError
    else
      match FirstRow(links, ShortColumn, short)
      case None => Value(None)
      case Some(k) =>
        match FirstBlockOf(blocks, k + 1)
        case None => Value(None)
        case Some(b) => Value(Some(BlockInfo(k + 1, short, blocks[b].entryDate, blocks[b].comment)))
  }

  /**
   * The block table after `add_blockentry` with its two values bound as
   * query parameters; `now` is the time the server stamps on the row. A
   * database error, and a second block for an already blocked link (refused
   * by the unique index on `block.link_id`), are swallowed and change
   * nothing; a short hash that names no link inserts a block whose link id
   * is NULL.
   */
  function BlockLink(links: seq<Link>, blocks: seq<Block>, short: string, comment: string, now: string,
                     fault: bool): (r: seq<Block>)
    ensures fault ==> r == blocks
    ensures !fault && !Taken(links, ShortColumn, short) ==> r == blocks + [Block(None, now, comment)]
    ensures !fault && Taken(links, ShortColumn, short) ==>
      var id := FirstRow(links, ShortColumn, short).value + 1;
      r == if exists i :: 0 <= i < |blocks| && blocks[i].linkId == Some(id) then blocks
           else blocks + [Block(Some(id), now, comment)]
  {
    if fault then blocks
    else
      match FirstRow(links, ShortColumn, short)
      case None => blocks + [Block(None, now, comment)]
      case Some(k) =>
        if FirstBlockOf(blocks, k + 1).Some? then blocks
        else blocks + [Block(Some(k + 1), now, comment)]
  }

  /**
   * A value that MySQL reads as a column name when it is spliced into the
   * statement unquoted: a lower-case letter followed by lower-case letters
   * and digits, other than the words that mean a value there (NULL, TRUE,
   * FALSE, DEFAULT, LOCALTIME, LOCALTIMESTAMP) and the one such column the
   * statement can see (`comment`).
   */
  predicate SplicedAsColumn(v: string)
  {
    && v != []
    && 'a' <= v[0] <= 'z'
    && (forall i :: 0 <= i < |v| ==> 'a' <= v[i] <= 'z' || '0' <= v[i] <= '9')
    && v !in ["null", "true", "false", "default", "localtime", "localtimestamp", "comment"]
  }

  /**
   * `add_blockentry` as written: the short hash and the comment are pasted
   * into the SQL text with `%`, unquoted. A value that reads as an unknown
   * column makes the server reject the statement with a DatabaseError,
   * which is swallowed: nothing is inserted. Otherwise the insert is taken
   * to behave as the bound-parameter one.
   */
  function BlockLinkAsWritten(links: seq<Link>, blocks: seq<Block>, short: string, comment: string, now: string,
                              fault: bool): (r: seq<Block>)
    ensures SplicedAsColumn(short) || SplicedAsColumn(comment) ==> r == blocks
    ensures !SplicedAsColumn(short) && !SplicedAsColumn(comment) ==> r == BlockLink(links, blocks, short, comment, now, fault)
  {
    if SplicedAsColumn(short) || SplicedAsColumn(comment) then blocks
    else BlockLink(links, blocks, short, comment, now, fault)
  }

  /**
   * The spliced statement loses the block of a word-like short hash: with
   * short hash "ab12" and comment "spam" the link stays unblocked, where the
   * bound-parameter insert blocks it.
   */
  lemma SplicedWordNotBlocked(links: seq<Link>, blocks: seq<Block>, now: string)
    requires BlocksValid(links, blocks)
    requires Taken(links, ShortColumn, "ab12")
    requires IsHashBlocked(links, blocks, "ab12", false) == Value(None)
    ensures IsHashBlocked(links, BlockLinkAsWritten(links, blocks, "ab12", "spam", now, false), "ab12", false) == Value(None)
    ensures IsHashBlocked(links, BlockLink(links, blocks, "ab12", "spam", now, false), "ab12", false).value.Some?
  {
    assert SplicedAsColumn("ab12");
    BlockLinkBlocks(links, blocks, "ab12", "spam", now, false);
  }

  /** Blocking keeps the block invariant; a failed query changes nothing. */
  lemma BlockLinkKeepsValid(links: seq<Link>, blocks: seq<Block>, short: string, comment: string, now: string,
                            fault: bool)
    requires BlocksValid(links, blocks)
    ensures var after := BlockLink(links, blocks, short, comment, now, fault);
      BlocksValid(links, after) && (fault ==> after == blocks)
  {
    var after := BlockLink(links, blocks, short, comment, now, fault);
    if after != blocks {
      var b := after[|blocks|];
      assert after == blocks + [b];
      assert b.linkId.Some? ==>
        (1 <= b.linkId.value <= |links| && forall i :: 0 <= i < |blocks| ==> blocks[i].linkId != b.linkId);
      forall i | 0 <= i < |blocks| ensures after[i] == blocks[i] {
      }
    }
  }

  /**
   * Blocking keeps the block invariant, and afterwards a stored, non-empty
   * short hash is reported as blocked: with the new entry date and comment
   * unless the link was blocked before, and as before otherwise.
   */
  lemma BlockLinkBlocks(links: seq<Link>, blocks: seq<Block>, short: string, comment: string, now: string,
                        fault: bool)
    requires BlocksValid(links, blocks)
    ensures var after := BlockLink(links, blocks, short, comment, now, fault);
      && BlocksValid(links, after)
      && (fault ==> after == blocks)
      && (!fault && short != "" && Taken(links, ShortColumn, short) ==>
            && IsHashBlocked(links, after, short, false).value.Some?
            && (IsHashBlocked(links, blocks, short, false).value.None? ==>
                  && IsHashBlocked(links, after, short, false).value.value.comment == comment
                  && IsHashBlocked(links, after, short, false).value.value.entryDate == now)
            && (IsHashBlocked(links, blocks, short, false).value.Some? ==>
                  IsHashBlocked(links, after, short, false) == IsHashBlocked(links, blocks, short, false)))
  {
    BlockLinkKeepsValid(links, blocks, short, comment, now, fault);
    if !fault && short != "" && Taken(links, ShortColumn, short) {
      var k := FirstRow(links, ShortColumn, short).value;
      if FirstBlockOf(blocks, k + 1).None? {
        BlockedAfterAppend(links, blocks, short, comment, now);
      } else {
        assert BlockLink(links, blocks, short, comment, now, fault) == blocks;
      }
    }
  }

  /** A link without a block row is reported blocked, with the new comment, once one is appended. */
  lemma BlockedAfterAppend(links: seq<Link>, blocks: seq<Block>, short: string, comment: string, now: string)
    requires short != "" && Taken(links, ShortColumn, short)
    requires FirstBlockOf(blocks, FirstRow(links, ShortColumn, short).value + 1).None?
    ensures var k := FirstRow(links, ShortColumn, short).value;
      && BlockLink(links, blocks, short, comment, now, false) == blocks + [Block(Some(k + 1), now, comment)]
      && IsHashBlocked(links, blocks + [Block(Some(k + 1), now, comment)], short, false)
         == Value(Some(BlockInfo(k + 1, short, now, comment)))
  {
    var k := FirstRow(links, ShortColumn, short).value;
    var b := Block(Some(k + 1), now, comment);
    assert FirstRow(links, ShortColumn, short) == Some(k);
    assert BlockLink(links, blocks, short, comment, now, false) == blocks + [b];
    FirstBlockOfAppend(blocks, b, k + 1);
  }

  /** A block appended for a link that had none is that link's first block. */
  lemma FirstBlockOfAppend(blocks: seq<Block>, b: Block, linkId: nat)
    requires FirstBlockOf(blocks, linkId).None? && b.linkId == Some(linkId)
    ensures FirstBlockOf(blocks + [b], linkId) == Some(|blocks|)
  {
    var after := blocks + [b];
    forall i | 0 <= i < |blocks| ensures after[i].linkId != Some(linkId) {
      assert after[i] == blocks[i];
    }
    assert after[|blocks|] == b;
  }

  /** Under the table invariant a stored row is found again by its short hash and by its full hash. */
  lemma LookupFindsRow(links: seq<Link>, k: nat)
    requires TableValid(links) && k < |links|
    ensures GetLinkFromDb(links, links[k].short, false) == Value(Some(links[k].url))
    ensures GetShortForHash(links, links[k].full, false) == Value(Some(links[k].short))
    ensures GetLinkByFullHash(links, links[k].full, false) == Value(Some(links[k].url))
    ensures IsHashInDb(links, links[k].full, false) == Value(Some(k + 1))
  {
    var s := FirstRow(links, ShortColumn, links[k].short);
    var f := FirstRow(links, FullColumn, links[k].full);
    assert Cell(links[k], ShortColumn) == links[k].short;
    assert Cell(links[k], FullColumn) == links[k].full;
  }

  // ------------------------------------------------------------- allocation

  function DuplicateOutcome(key: KeyName): InsertOutcome
  {
    match key
    case Key1 => DupKey1
    case Key2 => DupKey2
    case OtherKey => DupOther
  }

  /**
   * The outcome of inserting (short, full, ...) into the table: a
   * non-duplicate driver error, a duplicate entry on whichever unique index
   * the schema reports, or success.
   */
  function InsertOutcomeOf(links: seq<Link>, schema: Schema, short: string, full: string, fault: bool): (o: InsertOutcome)
    ensures o == OtherError <==> fault
    ensures o == Ok <==> !fault && !Taken(links, ShortColumn, short) && !Taken(links, FullColumn, full)
  {
    var shortClash := FirstRow(links, ShortColumn, short).Some?;
    var fullClash := FirstRow(links, FullColumn, full).Some?;
    if fault then OtherError
    else if shortClash && fullClash then
      DuplicateOutcome(if schema.shortReportedFirst then schema.shortKey else schema.fullKey)
    else if shortClash then DuplicateOutcome(schema.shortKey)
    else if fullClash then DuplicateOutcome(schema.fullKey)
    else Ok
  }

  /**
   * The loop of `add_link_to_db` from prefix length `i` on: the result and
   * the table afterwards. `failing` holds the prefix lengths whose INSERT
   * meets a non-duplicate database error; `rereadFails` says whether the
   * re-read after a "key 2" duplicate fails.
   */
  function Allocate(links: seq<Link>, schema: Schema, urlHash: string, url: string, i: nat,
                    failing: set<nat>, rereadFails: bool): (DbResult<Option<string>>, seq<Link>)
    decreases |urlHash| - i
  {
    if i >= |urlHash| then (Value(None), links)
    else
      var short := urlHash[..i];
      match InsertOutcomeOf(links, schema, short, urlHash, i in failing)
      case Ok => (Value(Some(short)), links + [Link(short, urlHash, url)])
      case DupKey2 => (GetShortForHash(links, urlHash, rereadFails), links)
      case DupKey1 => (Value(None), links)
      case DupOther => Allocate(links, schema, urlHash, url, i + 1, failing, rereadFails)
      case OtherError => (DatabaseError, links)
  }

  /**
   * What an allocation that inserts a row looks like: exactly one row is
   * added, holding the returned short hash, which is the prefix of length
   * `|s|` with `i <= |s| < |urlHash|`; neither it nor the full hash was in
   * the table; every shorter candidate from `i` on was a duplicate that let
   * the loop go on, so every shorter candidate was already some row's short
   * hash. An allocation that inserts nothing leaves the table as it was.
   */
  lemma {:induction false} AllocateInserts(links: seq<Link>, schema: Schema, urlHash: string, url: string, i: nat,
                                           failing: set<nat>, rereadFails: bool)
    ensures var (r, after) := Allocate(links, schema, urlHash, url, i, failing, rereadFails);
      after != links ==>
        && r.Value? && r.value.Some?
        && var s := r.value.value;
        && i <= |s| < |urlHash| && s == urlHash[..|s|]
        && after == links + [Link(s, urlHash, url)]
        && !Taken(links, ShortColumn, s) && !Taken(links, FullColumn, urlHash)
        && (forall j :: i <= j < |s| ==> InsertOutcomeOf(links, schema, urlHash[..j], urlHash, j in failing) == DupOther)
        && (forall j :: i <= j < |s| ==> Taken(links, ShortColumn, urlHash[..j]))
    decreases |urlHash| - i
  {
    if i < |urlHash| {
      var short := urlHash[..i];
      var o := InsertOutcomeOf(links, schema, short, urlHash, i in failing);
      if o == DupOther {
        AllocateSkips(links, schema, urlHash, url, i, failing, rereadFails);
        AllocateInserts(links, schema, urlHash, url, i + 1, failing, rereadFails);
        var (r, after) := Allocate(links, schema, urlHash, url, i + 1, failing, rereadFails);
        if after != links {
          var s := r.value.value;
          assert Taken(links, ShortColumn, short) by {
            assert !Taken(links, FullColumn, urlHash);
          }
          forall j | i <= j < |s|
            ensures InsertOutcomeOf(links, schema, urlHash[..j], urlHash, j in failing) == DupOther
            ensures Taken(links, ShortColumn, urlHash[..j])
          {
            if j == i {
              assert urlHash[..j] == short;
            }
          }
        }
      } else if o == Ok {
        assert Allocate(links, schema, urlHash, url, i, failing, rereadFails)
            == (Value(Some(short)), links + [Link(short, urlHash, url)]);
        assert |short| == i;
      } else {
        assert Allocate(links, schema, urlHash, url, i, failing, rereadFails).1 == links;
      }
    }
  }

  /** Allocation keeps the table invariant as long as candidates start at length 1 or more. */
  lemma AllocatePreservesValid(links: seq<Link>, schema: Schema, urlHash: string, url: string, i: nat,
                               failing: set<nat>, rereadFails: bool)
    requires TableValid(links) && i >= 1
    ensures TableValid(Allocate(links, schema, urlHash, url, i, failing, rereadFails).1)
  {
    AllocateInserts(links, schema, urlHash, url, i, failing, rereadFails);
    var (r, after) := Allocate(links, schema, urlHash, url, i, failing, rereadFails);
    if after != links {
      AppendKeepsValid(links, Link(r.value.value, urlHash, url));
    }
  }

  /** A duplicate that is neither key 1 nor key 2 moves the allocation on to the next prefix length. */
  lemma AllocateSkips(links: seq<Link>, schema: Schema, urlHash: string, url: string, i: nat,
                      failing: set<nat>, rereadFails: bool)
    requires i < |urlHash|
    requires InsertOutcomeOf(links, schema, urlHash[..i], urlHash, i in failing) == DupOther
    ensures Allocate(links, schema, urlHash, url, i, failing, rereadFails)
         == Allocate(links, schema, urlHash, url, i + 1, failing, rereadFails)
  {
  }

  /** A run of plain duplicates from length `i` up to `k` is skipped: the allocation from `i` is the one from `k`. */
  lemma {:induction false} AllocateRunsTo(links: seq<Link>, schema: Schema, urlHash: string, url: string, i: nat, k: nat,
                                          failing: set<nat>, rereadFails: bool)
    requires i <= k <= |urlHash|
    requires forall j :: i <= j < k ==> InsertOutcomeOf(links, schema, urlHash[..j], urlHash, j in failing) == DupOther
    ensures Allocate(links, schema, urlHash, url, i, failing, rereadFails)
         == Allocate(links, schema, urlHash, url, k, failing, rereadFails)
    decreases k - i
  {
    if i < k {
      AllocateSkips(links, schema, urlHash, url, i, failing, rereadFails);
      AllocateRunsTo(links, schema, urlHash, url, i + 1, k, failing, rereadFails);
    }
  }

  /**
   * The allocation raises a database error whenever the first INSERT that
   * is not a plain duplicate fails, or is a "key 2" duplicate whose re-read
   * fails; the table is then unchanged.
   */
  lemma AllocateReportsFault(links: seq<Link>, schema: Schema, urlHash: string, url: string, i: nat, k: nat,
                             failing: set<nat>, rereadFails: bool)
    requires i <= k < |urlHash|
    requires forall j :: i <= j < k ==> InsertOutcomeOf(links, schema, urlHash[..j], urlHash, j in failing) == DupOther
    requires k in failing || (InsertOutcomeOf(links, schema, urlHash[..k], urlHash, false) == DupKey2 && rereadFails)
    ensures Allocate(links, schema, urlHash, url, i, failing, rereadFails) == (DatabaseError, links)
  {
    AllocateRunsTo(links, schema, urlHash, url, i, k, failing, rereadFails);
    AllocateStops(links, schema, urlHash, url, k, failing, rereadFails);
  }

  /** Where the allocation stops at prefix length `i`: what each INSERT outcome other than a plain duplicate returns. */
  lemma AllocateStops(links: seq<Link>, schema: Schema, urlHash: string, url: string, i: nat,
                      failing: set<nat>, rereadFails: bool)
    ensures i >= |urlHash| ==> Allocate(links, schema, urlHash, url, i, failing, rereadFails) == (Value(None), links)
    ensures i < |urlHash| ==>
      var short := urlHash[..i];
      var o := InsertOutcomeOf(links, schema, short, urlHash, i in failing);
      var a := Allocate(links, schema, urlHash, url, i, failing, rereadFails);
      && (o == Ok ==> a == (Value(Some(short)), links + [Link(short, urlHash, url)]))
      && (o == DupKey2 ==> a == (GetShortForHash(links, urlHash, rereadFails), links))
      && (o == DupKey1 ==> a == (Value(None), links))
      && (o == OtherError ==> a == (DatabaseError, links))
  {
  }

  /** The row a successful INSERT of prefix length `i >= 1` adds keeps both tables consistent. */
  lemma InsertedRowKeepsValid(links: seq<Link>, blocks: seq<Block>, schema: Schema, urlHash: string, url: string,
                              i: nat, fault: bool)
    requires TableValid(links) && BlocksValid(links, blocks)
    requires 1 <= i < |urlHash|
    requires InsertOutcomeOf(links, schema, urlHash[..i], urlHash, fault) == Ok
    ensures TableValid(links + [Link(urlHash[..i], urlHash, url)])
    ensures BlocksValid(links + [Link(urlHash[..i], urlHash, url)], blocks)
  {
    var row := Link(urlHash[..i], urlHash, url);
    AppendKeepsValid(links, row);
    BlocksValidGrows(links, links + [row], blocks);
  }

  /** Adding links never invalidates a block: every link id stays in range. */
  lemma BlocksValidGrows(links: seq<Link>, more: seq<Link>, blocks: seq<Block>)
    requires BlocksValid(links, blocks) && |links| <= |more|
    ensures BlocksValid(more, blocks)
  {
  }

  lemma AppendKeepsValid(links: seq<Link>, l: Link)
    requires TableValid(links)
    requires !Taken(links, ShortColumn, l.short) && !Taken(links, FullColumn, l.full)
    requires 0 < |l.short| < |l.full| && l.full[..|l.short|] == l.short
    ensures TableValid(links + [l])
  {
    var all := links + [l];
    forall k | 0 <= k < |links|
      ensures links[k].short != l.short && links[k].full != l.full
    {
      assert Cell(links[k], ShortColumn) == links[k].short;
      assert Cell(links[k], FullColumn) == links[k].full;
    }
    assert forall k :: 0 <= k < |links| ==> all[k] == links[k];
    assert all[|links|] == l;
  }

  /**
   * Round trip: after an allocation that inserted the short hash `s`,
   * `get_link_from_db(s)` gives the URL and `get_short_for_hash_from_db`
   * gives `s` back.
   */
  lemma AllocateRoundTrip(links: seq<Link>, schema: Schema, urlHash: string, url: string, i: nat,
                          failing: set<nat>, rereadFails: bool)
    ensures var (r, after) := Allocate(links, schema, urlHash, url, i, failing, rereadFails);
      after != links ==>
        && r.Value? && r.value.Some?
        && GetLinkFromDb(after, r.value.value, false) == Value(Some(url))
        && GetShortForHash(after, urlHash, false) == Value(Some(r.value.value))
  {
    AllocateInserts(links, schema, urlHash, url, i, failing, rereadFails);
    var (r, after) := Allocate(links, schema, urlHash, url, i, failing, rereadFails);
    if after != links {
      var s := r.value.value;
      FirstRowAppended(links, Link(s, urlHash, url), ShortColumn);
      FirstRowAppended(links, Link(s, urlHash, url), FullColumn);
    }
  }

  lemma FirstRowAppended(links: seq<Link>, l: Link, c: Column)
    requires !Taken(links, c, Cell(l, c))
    ensures FirstRow(links + [l], c, Cell(l, c)) == Some(|links|)
  {
    var all := links + [l];
    assert all[|links|] == l;
    assert Cell(all[|links|], c) == Cell(l, c);
    forall k | 0 <= k < |links| ensures Cell(all[k], c) != Cell(l, c) {
      assert all[k] == links[k];
    }
  }

  /**
   * For a full hash that is not stored yet, a short hash is returned only
   * together with a newly inserted row: a "key 2" duplicate re-reads a hash
   * that is not there and yields None.
   */
  lemma {:induction false} AllocateFreshHash(links: seq<Link>, schema: Schema, urlHash: string, url: string, i: nat,
                                             failing: set<nat>, rereadFails: bool)
    requires !Taken(links, FullColumn, urlHash)
    ensures var (r, after) := Allocate(links, schema, urlHash, url, i, failing, rereadFails);
      r.Value? && r.value.Some? ==> after != links
    decreases |urlHash| - i
  {
    if i < |urlHash| {
      var o := InsertOutcomeOf(links, schema, urlHash[..i], urlHash, i in failing);
      if o == DupOther {
        AllocateFreshHash(links, schema, urlHash, url, i + 1, failing, rereadFails);
      } else if o == Ok {
        var l := Link(urlHash[..i], urlHash, url);
        assert (links + [l])[|links|] == l;
        assert |links + [l]| != |links|;
      }
    }
  }

  /**
   * With the schema the code's comments assume (a "key 2" duplicate means
   * the full hash is stored, the full-hash clash is reported first) and no
   * failing insert, a full hash that is already stored gives back its
   * existing short hash and adds no row.
   */
  lemma AllocateKnownHash(links: seq<Link>, schema: Schema, urlHash: string, url: string, i: nat,
                          failing: set<nat>, rereadFails: bool)
    requires schema.fullKey == Key2 && !schema.shortReportedFirst
    requires i < |urlHash| && i !in failing
    requires Taken(links, FullColumn, urlHash)
    ensures Allocate(links, schema, urlHash, url, i, failing, rereadFails) == (GetShortForHash(links, urlHash, rereadFails), links)
  {
  }

  /**
   * With that schema, a short-hash clash that is reported as neither key 1
   * nor key 2, no failing insert and a full hash not yet stored, a row is
   * inserted exactly when some candidate prefix from `i` on is free; the
   * first free one is taken (AllocateInserts).
   */
  lemma {:induction false} AllocateFindsFreePrefix(links: seq<Link>, schema: Schema, urlHash: string, url: string, i: nat,
                                                   failing: set<nat>, rereadFails: bool)
    requires schema.shortKey == OtherKey
    requires forall j :: i <= j < |urlHash| ==> j !in failing
    requires !Taken(links, FullColumn, urlHash)
    ensures var (r, after) := Allocate(links, schema, urlHash, url, i, failing, rereadFails);
      (after != links <==> exists j :: i <= j < |urlHash| && !Taken(links, ShortColumn, urlHash[..j]))
      && (after == links ==> r == Value(None))
    decreases |urlHash| - i
  {
    if i < |urlHash| {
      var short := urlHash[..i];
      assert i !in failing;
      if Taken(links, ShortColumn, short) {
        assert InsertOutcomeOf(links, schema, short, urlHash, false) == DupOther;
        AllocateSkips(links, schema, urlHash, url, i, failing, rereadFails);
        AllocateFindsFreePrefix(links, schema, urlHash, url, i + 1, failing, rereadFails);
        assert (exists j :: i <= j < |urlHash| && !Taken(links, ShortColumn, urlHash[..j]))
           ==> (exists j :: i + 1 <= j < |urlHash| && !Taken(links, ShortColumn, urlHash[..j]));
      } else {
        var after := links + [Link(short, urlHash, url)];
        assert InsertOutcomeOf(links, schema, short, urlHash, false) == Ok;
        assert Allocate(links, schema, urlHash, url, i, failing, rereadFails).1 == after;
        assert after[|links|] == Link(short, urlHash, url);
        assert after != links;
      }
    }
  }

  // ------------------------------------------------------------- access log

  /** The ids of the links with this short hash: the rows `add_logentry_to_database` inserts. */
  function IdsWithShort(links: seq<Link>, short: string): (r: seq<nat>)
    ensures forall k :: 0 <= k < |r| ==> 1 <= r[k] <= |links| && links[r[k] - 1].short == short
  {
    if links == [] then []
    else
      var rest := IdsWithShort(links[..|links| - 1], short);
      assert forall k :: 0 <= k < |links| - 1 ==> links[..|links| - 1][k] == links[k];
      rest + (if links[|links| - 1].short == short then [|links|] else [])
  }

  /** Under the table invariant one id is inserted for a stored short hash and none otherwise. */
  lemma {:induction false} IdsWithShortCount(links: seq<Link>, short: string)
    requires TableValid(links)
    ensures |IdsWithShort(links, short)| == if Taken(links, ShortColumn, short) then 1 else 0
  {
    if links != [] {
      var n := |links| - 1;
      var p := links[..n];
      assert forall k :: 0 <= k < n ==> p[k] == links[k];
      assert TableValid(p);
      IdsWithShortCount(p, short);
      assert Cell(links[n], ShortColumn) == links[n].short;
      if Taken(links, ShortColumn, short) {
        var k :| 0 <= k < |links| && Cell(links[k], ShortColumn) == short;
        if links[n].short != short {
          assert Cell(p[k], ShortColumn) == short;
        }
      }
    }
  }

  /** Number of access-log entries that belong to a link with this short hash. */
  function Redirects(links: seq<Link>, log: seq<nat>, short: string): nat
  {
    if log == [] then 0
    else
      var e := log[|log| - 1];
      Redirects(links, log[..|log| - 1], short) + (if 1 <= e <= |links| && links[e - 1].short == short then 1 else 0)
  }

  /** `get_statistics_for_hash`: the redirect count, or None when the query fails. */
  function StatisticsForHash(links: seq<Link>, log: seq<nat>, short: string, fault: bool): (r: PyValue)
    ensures fault <==> r == PyNone
    ensures !fault ==> r == PyInt(Redirects(links, log, short))
  {
    if fault then PyNone else PyInt(Redirects(links, log, short))
  }

  /** The access log after `add_logentry_to_database`; a failing insert is swallowed. */
  function LogAccess(links: seq<Link>, log: seq<nat>, short: string, fault: bool): (r: seq<nat>)
    ensures fault ==> r == log
    ensures |log| <= |r| && r[..|log|] == log
  {
    if fault then log else log + IdsWithShort(links, short)
  }

  lemma {:induction false} RedirectsAppend(links: seq<Link>, log: seq<nat>, extra: seq<nat>, short: string)
    requires forall k :: 0 <= k < |extra| ==> 1 <= extra[k] <= |links| && links[extra[k] - 1].short == short
    ensures Redirects(links, log + extra, short) == Redirects(links, log, short) + |extra|
    decreases |extra|
  {
    if extra == [] {
      assert log + extra == log;
    } else {
      var all := log + extra;
      assert all[..|all| - 1] == log + extra[..|extra| - 1];
      assert all[|all| - 1] == extra[|extra| - 1];
      assert forall k :: 0 <= k < |extra| - 1 ==> extra[..|extra| - 1][k] == extra[k];
      RedirectsAppend(links, log, extra[..|extra| - 1], short);
      var e := extra[|extra| - 1];
      assert 1 <= e <= |links| && links[e - 1].short == short;
      assert Redirects(links, all, short) == Redirects(links, all[..|all| - 1], short) + 1;
    }
  }

  /**
   * Logging an access to a stored short hash raises its redirect count by
   * exactly one; a failing log insert changes nothing.
   */
  lemma LogAccessCounts(links: seq<Link>, log: seq<nat>, short: string, fault: bool)
    requires TableValid(links)
    ensures var after := LogAccess(links, log, short, fault);
      Redirects(links, after, short) ==
        Redirects(links, log, short) + (if !fault && Taken(links, ShortColumn, short) then 1 else 0)
  {
    if !fault {
      RedirectsAppend(links, log, IdsWithShort(links, short), short);
      IdsWithShortCount(links, short);
    }
  }

  // ------------------------------------------------------ general statistics

  /** The answer of `get_statistics_for_general_redirects` / `_links`. */
  datatype StatsReply<+R> = NoStats | AllRows(rows: seq<R>) | FirstRowOnly(row: R) | IndexErrorRaised

  const GROUPED_RANGES: set<string> := {"per_week", "per_hour", "per_dom", "per_dow"}
  const SCALAR_RANGES: set<string> := {"today", "this_year", "this_week", "this_month", "all"}

  /**
   * The key dispatch of the general statistics: an unknown time range or a
   * failing query gives None, a grouped range gives all rows, any other
   * known range gives the first row (an empty result raises IndexError,
   * which is not caught). `rows` is what the query returned.
   */
  function GeneralStatistics<R>(timeRange: string, fault: bool, rows: seq<R>): (r: StatsReply<R>)
    ensures r == NoStats <==> fault || timeRange !in GROUPED_RANGES + SCALAR_RANGES
    ensures r.AllRows? <==> !fault && timeRange in GROUPED_RANGES
    ensures r.AllRows? ==> r.rows == rows
    ensures r.FirstRowOnly? <==> !fault && timeRange in SCALAR_RANGES && |rows| > 0
    ensures r.FirstRowOnly? ==> r.row == rows[0]
  {
    if fault || timeRange !in GROUPED_RANGES + SCALAR_RANGES then NoStats
    else if timeRange in GROUPED_RANGES then AllRows(rows)
    else if |rows| > 0 then FirstRowOnly(rows[0])
    else IndexErrorRaised
  }
}
