/**
 * `YuLinkStats`: the per-link statistics page's data. Its constructor reads
 * the link's details, the dates of its first and last redirect and its
 * redirect count, and derives five attributes from them.
 */
module LinkStats {
  import opened Common

  /** The row `get_link_details` returns: id, short hash, full hash, link, comment, entry date. */
  datatype Details = Details(linkId: PyValue, short: PyValue, full: PyValue, link: PyValue, comment: PyValue, entryDate: PyValue)

  /** How a database read ends: a value or YuDatabaseError. */
  datatype Read<+T> = Got(value: T) | DatabaseErrorRaised

  /**
   * The database reads the constructor makes, per short hash:
   * `get_link_details` (a row or None), the first and last redirect dates
   * (the one-column row, or None when the query failed) and
   * `get_statistics_for_hash`. `objectText` is how a driver value other than
   * None, a string or an int (a datetime) prints.
   */
  datatype StatsSource = StatsSource(
    details: string -> Read<Option<Details>>,
    firstEntry: string -> Option<PyValue>,
    lastEntry: string -> Option<PyValue>,
    statistics: string -> PyValue,
    objectText: nat -> string)

  /** The exception `__init__` ends with. */
  datatype InitError = YuDatabaseError | TypeError

  /** The five attributes of a finished object. */
  datatype StatsFields = StatsFields(linkAddress: PyValue, creationTime: PyValue, firstRedirect: PyValue,
                                     lastRedirect: PyValue, numberOfRedirects: PyValue)

  datatype InitOutcome = Initialised(fields: StatsFields) | Raised(error: InitError)

  const NO_FIELDS := StatsFields(PyNone, PyNone, PyNone, PyNone, PyNone)

  /** Python 2 `'%s' % v`. */
  function Str(v: PyValue, objectText: nat -> string): string
  {
    match v
    case PyNone => "None"
    case PyStr(s) => s
    case PyInt(i) => IntToDecimal(i)
    case PyObject(id) => objectText(id)
  }

  /** `creation_time`: the entry date followed by " (UTC)", or "Unknown" when the date is false. */
  function CreationTime(entryDate: PyValue, objectText: nat -> string): (r: string)
    ensures r == "Unknown" <==> !Truthy(entryDate)
    ensures Truthy(entryDate) ==> StartsWith(r, Str(entryDate, objectText)) && EndsWith(r, " (UTC)")
    ensures Truthy(entryDate) ==> |r| == |Str(entryDate, objectText)| + 6
  {
    if Truthy(entryDate) then
      var t := Str(entryDate, objectText);
      assert (t + " (UTC)")[..|t|] == t;
      assert (t + " (UTC)")[|t + " (UTC)"| - 6..] == " (UTC)";
      assert (t + " (UTC)")[|t + " (UTC)"| - 1] == ')';
      t + " (UTC)"
    else "Unknown"
  }

  /**
   * What `__init__` ends with. A None short hash, or one without link
   * details, leaves all five attributes None; a YuDatabaseError from the
   * details read propagates; a redirect-date read that returned None makes
   * the subscript raise TypeError.
   */
  function LinkStatsOf(shorthash: Option<string>, db: StatsSource): (r: InitOutcome)
    ensures r == Initialised(NO_FIELDS) <==> shorthash.None? || db.details(shorthash.value) == Got(None)
    ensures r == Raised(YuDatabaseError) <==> shorthash.Some? && db.details(shorthash.value).DatabaseErrorRaised?
    ensures r == Raised(TypeError) <==>
      && shorthash.Some? && db.details(shorthash.value).Got? && db.details(shorthash.value).value.Some?
      && (db.firstEntry(shorthash.value).None? || db.lastEntry(shorthash.value).None?)
    ensures r.Initialised? && r.fields != NO_FIELDS ==>
      && shorthash.Some? && db.details(shorthash.value).Got? && db.details(shorthash.value).value.Some?
      && var d := db.details(shorthash.value).value.value;
      && r.fields.linkAddress == d.link
      && r.fields.creationTime == PyStr(CreationTime(d.entryDate, db.objectText))
      && Some(r.fields.firstRedirect) == db.firstEntry(shorthash.value)
      && Some(r.fields.lastRedirect) == db.lastEntry(shorthash.value)
      && r.fields.numberOfRedirects == db.statistics(shorthash.value)
  {
    if shorthash.None? then Initialised(NO_FIELDS)
    else
      match db.details(shorthash.value)
      case DatabaseErrorRaised => Raised(YuDatabaseError)
      case Got(None) => Initialised(NO_FIELDS)
      case Got(Some(d)) =>
        var first := db.firstEntry(shorthash.value);
        var last := db.lastEntry(shorthash.value);
        if first.None? || last.None? then Raised(TypeError)
        else Initialised(StatsFields(d.link, PyStr(CreationTime(d.entryDate, db.objectText)), first.value, last.value,
                                     db.statistics(shorthash.value)))
  }

  class YuLinkStats {
    var linkAddress: PyValue
    var creationTime: PyValue
    var firstRedirect: PyValue
    var lastRedirect: PyValue
    var numberOfRedirects: PyValue
    /**
     * The exception `__init__` raised, if any; an object with a raised
     * exception never reaches the caller, but the attributes assigned before
     * the raise are kept here.
     */
    var raised: Option<InitError>

    function Fields(): StatsFields
      reads this
    {
      StatsFields(linkAddress, creationTime, firstRedirect, lastRedirect, numberOfRedirects)
    }

    /**
     * `__init__(shorthash)`: the attributes are assigned in the source's
     * order, so a TypeError from a redirect date leaves `link_address` and
     * `creation_time` already set.
     */
    constructor (shorthash: Option<string>, db: StatsSource)
      ensures raised.None? <==> LinkStatsOf(shorthash, db).Initialised?
      ensures raised.None? ==> Fields() == LinkStatsOf(shorthash, db).fields
      ensures raised.Some? ==> raised.value == LinkStatsOf(shorthash, db).error
      ensures raised == Some(TypeError) ==>
        var d := db.details(shorthash.value).value.value;
        linkAddress == d.link && creationTime == PyStr(CreationTime(d.entryDate, db.objectText))
    {
      raised := None;
      var details := if shorthash.Some? then db.details(shorthash.value) else Got(None);
      if details.DatabaseErrorRaised? {
        raised := Some(YuDatabaseError);
      } else if details.value.Some? {
        var d := details.value.value;
        creationTime := PyStr(CreationTime(d.entryDate, db.objectText));
        linkAddress := d.link;
        var first := db.firstEntry(shorthash.value);
        if first.None? {
          raised := Some(TypeError);
        } else {
          firstRedirect := first.value;
          var last := db.lastEntry(shorthash.value);
          if last.None? {
            raised := Some(TypeError);
          } else {
            lastRedirect := last.value;
            numberOfRedirects := db.statistics(shorthash.value);
          }
        }
      } else {
        linkAddress := PyNone;
        creationTime := PyNone;
        firstRedirect := PyNone;
        lastRedirect := PyNone;
        numberOfRedirects := PyNone;
      }
    }
  }
}
