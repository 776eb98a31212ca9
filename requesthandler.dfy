/**
 * The decisions of the yaturl HTTP request handler: turning a submitted URL
 * into a short hash (or a status code), resolving a short hash from a GET
 * path, the `/URLRequest` and `/Show` form handling, and the content type of
 * a response. Pages are represented by which page is sent and the value it
 * shows; their markup is not part of the model.
 */
module RequestHandler {
  import opened Common
  import opened LinkStore
  import Database
  import Helpers
  import PosixPath

  /** URLs of this length or longer are refused. */
  const MAX_URL_LENGTH := 4096

  /**
   * The two foreign steps, as deterministic functions: `_split_url`
   * (urlsplit, IDNA-encoding of the host, urlunsplit) and `_get_hash` (SHA-1
   * hex digest).
   */
  datatype Codec = Codec(splitUrl: string -> string, sha1: string -> string)

  /**
   * Which database calls fail during one insert request: the hash lookup,
   * the INSERTs of the prefix lengths in `failingInserts`, the re-read after
   * a "key 2" duplicate, the URL lookup and the short-hash lookup.
   */
  datatype Faults = Faults(hashLookup: bool, failingInserts: set<nat>, keyReread: bool, urlLookup: bool, shortLookup: bool)

  /** What `_insert_url_to_db` returns: a short hash, None, -1 (database problem) or -2 (collision). */
  datatype InsertStatus = Short(s: string) | NoResult | DatabaseProblem | Collision

  /** The Python value `_insert_url_to_db` returns for a status. */
  function StatusValue(st: InsertStatus): (v: PyValue)
    ensures st.Short? <==> v.PyStr?
    ensures st.DatabaseProblem? <==> v == PyInt(-1)
    ensures st.Collision? <==> v == PyInt(-2)
    ensures st.NoResult? <==> v == PyNone
  {
    match st
    case Short(s) => PyStr(s)
    case NoResult => PyNone
    case DatabaseProblem => PyInt(-1)
    case Collision => PyInt(-2)
  }

  /** A URL is processed only if it is non-empty, shorter than 4096 and does not mention this server. */
  predicate UrlAccepted(url: Option<string>, hostname: string)
  {
    url.Some? && url.value != "" && |url.value| < MAX_URL_LENGTH && !Contains(Lower(url.value), Lower(hostname))
  }

  /** `http://` is put in front of a URL that has no `://`. */
  function WithScheme(url: string): (r: string)
    ensures Contains(r, "://")
    ensures EndsWith(r, url)
    ensures r == url <==> Contains(url, "://")
  {
    if Contains(url, "://") then url
    else
      ContainsInfix("http", "://", url);
      assert "http://" + url == "http" + "://" + url;
      assert ("http://" + url)[|"http://" + url| - |url|..] == url;
      "http://" + url
  }

  /** The URL that is hashed, stored and compared: the re-split URL with scheme. */
  function NormalizedUrl(codec: Codec, url: string): string
  {
    codec.splitUrl(WithScheme(url))
  }

  /**
   * `_insert_url_to_db(url)` against the link table: the status and the
   * table afterwards.
   */
  function InsertUrl(links: seq<Link>, schema: Schema, minLen: nat, url: Option<string>, hostname: string,
                     codec: Codec, faults: Faults): (InsertStatus, seq<Link>)
  {
    if !UrlAccepted(url, hostname) then (NoResult, links)
    else
      var urlNew := NormalizedUrl(codec, url.value);
      var linkHash := codec.sha1(urlNew);
      match IsHashInDb(links, linkHash, faults.hashLookup)
      case DatabaseError => (DatabaseProblem, links)
      case Value(None) =>
        var (r, after) := Allocate(links, schema, linkHash, urlNew, minLen, faults.failingInserts, faults.keyReread);
        (match r
         case DatabaseError => DatabaseProblem
         case Value(None) => NoResult
         case Value(Some(s)) => Short(s), after)
      case Value(Some(_)) =>
        match GetLinkByFullHash(links, linkHash, faults.urlLookup)
        case DatabaseError => (DatabaseProblem, links)
        case Value(stored) =>
          if stored != Some(urlNew) then (Collision, links)
          else
            match GetShortForHash(links, linkHash, faults.shortLookup)
            case DatabaseError => (DatabaseProblem, links)
            case Value(None) => (NoResult, links)
            case Value(Some(s)) => (Short(s), links)
  }

  /**
   * A missing or empty URL, one of 4096 characters or more, or one that
   * contains the server's hostname (ignoring case) gives None and touches
   * no table.
   */
  lemma InsertRejectsInvalid(links: seq<Link>, schema: Schema, minLen: nat, url: Option<string>, hostname: string,
                             codec: Codec, faults: Faults)
    requires url.None? || url.value == "" || |url.value| >= MAX_URL_LENGTH || Contains(Lower(url.value), Lower(hostname))
    ensures InsertUrl(links, schema, minLen, url, hostname, codec, faults) == (NoResult, links)
  {
  }

  /**
   * Links to the service itself are never shortened: any URL that contains
   * the hostname, in any mix of upper and lower case, gives None.
   */
  lemma {:induction false} OwnLinkRejected(links: seq<Link>, schema: Schema, minLen: nat, before: string, name: string,
                                           after: string, hostname: string, codec: Codec, faults: Faults)
    requires Lower(name) == Lower(hostname)
    ensures InsertUrl(links, schema, minLen, Some(before + name + after), hostname, codec, faults) == (NoResult, links)
  {
    LowerConcat(before, name);
    LowerConcat(before + name, after);
    ContainsInfix(Lower(before), Lower(hostname), Lower(after));
    InsertRejectsInvalid(links, schema, minLen, Some(before + name + after), hostname, codec, faults);
  }

  /**
   * The only row an insert request can add is (short hash, SHA-1 of the
   * normalised URL, normalised URL), and it adds one only when it returns
   * that short hash, which is a proper prefix of the full hash of at least
   * the minimum length. Every other outcome leaves the table as it was.
   */
  lemma InsertAddsNormalizedRow(links: seq<Link>, schema: Schema, minLen: nat, url: Option<string>, hostname: string,
                                codec: Codec, faults: Faults)
    ensures var (st, after) := InsertUrl(links, schema, minLen, url, hostname, codec, faults);
      after != links ==>
        && UrlAccepted(url, hostname)
        && var urlNew := NormalizedUrl(codec, url.value);
        && var h := codec.sha1(urlNew);
        && st.Short? && after == links + [Link(st.s, h, urlNew)]
        && minLen <= |st.s| < |h| && st.s == h[..|st.s|]
        && !Taken(links, FullColumn, h)
  {
    if UrlAccepted(url, hostname) {
      var urlNew := NormalizedUrl(codec, url.value);
      var h := codec.sha1(urlNew);
      AllocateInserts(links, schema, h, urlNew, minLen, faults.failingInserts, faults.keyReread);
    }
  }

  /**
   * A hash that is already stored with the same URL gives the stored short
   * hash back and inserts nothing.
   */
  lemma InsertKnownUrl(links: seq<Link>, schema: Schema, minLen: nat, url: Option<string>, hostname: string,
                       codec: Codec, faults: Faults, k: nat)
    requires TableValid(links) && UrlAccepted(url, hostname)
    requires !faults.hashLookup && !faults.urlLookup && !faults.shortLookup
    requires k < |links| && links[k].full == codec.sha1(NormalizedUrl(codec, url.value))
    requires links[k].url == NormalizedUrl(codec, url.value)
    ensures InsertUrl(links, schema, minLen, url, hostname, codec, faults) == (Short(links[k].short), links)
  {
    LookupFindsRow(links, k);
  }

  /**
   * A collision (-2) is reported exactly when the hash is stored with a
   * different URL; it never comes with a short hash and changes nothing.
   */
  lemma InsertCollision(links: seq<Link>, schema: Schema, minLen: nat, url: Option<string>, hostname: string,
                        codec: Codec, faults: Faults)
    ensures var (st, after) := InsertUrl(links, schema, minLen, url, hostname, codec, faults);
      && (st == Collision <==>
            && UrlAccepted(url, hostname) && !faults.hashLookup && !faults.urlLookup
            && var h := codec.sha1(NormalizedUrl(codec, url.value));
            && Taken(links, FullColumn, h)
            && GetLinkByFullHash(links, h, false) != Value(Some(NormalizedUrl(codec, url.value))))
      && (st == Collision ==> after == links)
  {
  }

  /** -1 is reported only when some database call failed, and then nothing was inserted. */
  lemma InsertDatabaseProblem(links: seq<Link>, schema: Schema, minLen: nat, url: Option<string>, hostname: string,
                              codec: Codec, faults: Faults)
    ensures var (st, after) := InsertUrl(links, schema, minLen, url, hostname, codec, faults);
      st == DatabaseProblem ==>
        && after == links
        && (faults.hashLookup || faults.urlLookup || faults.shortLookup || faults.keyReread || faults.failingInserts != {})
  {
    var (st, after) := InsertUrl(links, schema, minLen, url, hostname, codec, faults);
    if st == DatabaseProblem && UrlAccepted(url, hostname) {
      var urlNew := NormalizedUrl(codec, url.value);
      var h := codec.sha1(urlNew);
      AllocateInserts(links, schema, h, urlNew, minLen, faults.failingInserts, faults.keyReread);
      AllocateErrorNeedsFault(links, schema, h, urlNew, minLen, faults.failingInserts, faults.keyReread);
    }
  }

  /**
   * Conversely, every failing database call that the request reaches makes
   * it report -1 and insert nothing: the hash lookup; the URL lookup when the
   * hash is stored; the short-hash lookup when the stored URL is the
   * normalised one; the first INSERT of the allocation that is not a plain
   * duplicate, when it fails or is a "key 2" duplicate whose re-read fails.
   */
  lemma InsertReportsFault(links: seq<Link>, schema: Schema, minLen: nat, url: Option<string>, hostname: string,
                           codec: Codec, faults: Faults)
    ensures UrlAccepted(url, hostname) ==>
      var urlNew := NormalizedUrl(codec, url.value);
      var h := codec.sha1(urlNew);
      var reached :=
        || faults.hashLookup
        || (Taken(links, FullColumn, h) && faults.urlLookup)
        || (Taken(links, FullColumn, h) && GetLinkByFullHash(links, h, false) == Value(Some(urlNew)) && faults.shortLookup)
        || (!Taken(links, FullColumn, h) &&
            exists k :: minLen <= k < |h| &&
              (forall j :: minLen <= j < k ==> InsertOutcomeOf(links, schema, h[..j], h, j in faults.failingInserts) == DupOther) &&
              (k in faults.failingInserts ||
               (InsertOutcomeOf(links, schema, h[..k], h, false) == DupKey2 && faults.keyReread)));
      reached ==> InsertUrl(links, schema, minLen, url, hostname, codec, faults) == (DatabaseProblem, links)
  {
    if UrlAccepted(url, hostname) {
      var urlNew := NormalizedUrl(codec, url.value);
      var h := codec.sha1(urlNew);
      if !faults.hashLookup && !Taken(links, FullColumn, h) {
        if exists k :: minLen <= k < |h| &&
             (forall j :: minLen <= j < k ==> InsertOutcomeOf(links, schema, h[..j], h, j in faults.failingInserts) == DupOther) &&
             (k in faults.failingInserts ||
              (InsertOutcomeOf(links, schema, h[..k], h, false) == DupKey2 && faults.keyReread)) {
          var k :| minLen <= k < |h| &&
             (forall j :: minLen <= j < k ==> InsertOutcomeOf(links, schema, h[..j], h, j in faults.failingInserts) == DupOther) &&
             (k in faults.failingInserts ||
              (InsertOutcomeOf(links, schema, h[..k], h, false) == DupKey2 && faults.keyReread));
          AllocateReportsFault(links, schema, h, urlNew, minLen, k, faults.failingInserts, faults.keyReread);
        }
      }
    }
  }

  lemma {:induction false} AllocateErrorNeedsFault(links: seq<Link>, schema: Schema, urlHash: string, url: string, i: nat,
                                                   failing: set<nat>, rereadFails: bool)
    ensures Allocate(links, schema, urlHash, url, i, failing, rereadFails).0 == DatabaseError ==>
      rereadFails || failing != {}
    decreases |urlHash| - i
  {
    if i < |urlHash| {
      var o := InsertOutcomeOf(links, schema, urlHash[..i], urlHash, i in failing);
      if o == DupOther {
        AllocateErrorNeedsFault(links, schema, urlHash, url, i + 1, failing, rereadFails);
      } else if o == OtherError {
        assert i in failing;
      }
    }
  }

  /**
   * Round trip: with the table invariant and a minimum length of at least 1,
   * whenever a request yields a short hash, looking that short hash up gives
   * the normalised URL, and the table invariant still holds.
   */
  lemma InsertRoundTrip(links: seq<Link>, schema: Schema, minLen: nat, url: Option<string>, hostname: string,
                        codec: Codec, faults: Faults)
    requires TableValid(links) && minLen >= 1
    ensures var (st, after) := InsertUrl(links, schema, minLen, url, hostname, codec, faults);
      && TableValid(after)
      && (st.Short? ==> GetLinkFromDb(after, st.s, false) == Value(Some(NormalizedUrl(codec, url.value))))
      && (st.Short? ==> GetShortForHash(after, codec.sha1(NormalizedUrl(codec, url.value)), false) == Value(Some(st.s)))
  {
    var (st, after) := InsertUrl(links, schema, minLen, url, hostname, codec, faults);
    if UrlAccepted(url, hostname) {
      var urlNew := NormalizedUrl(codec, url.value);
      var h := codec.sha1(urlNew);
      if !faults.hashLookup && !Taken(links, FullColumn, h) {
        AllocatePreservesValid(links, schema, h, urlNew, minLen, faults.failingInserts, faults.keyReread);
        AllocateFreshHash(links, schema, h, urlNew, minLen, faults.failingInserts, faults.keyReread);
        AllocateRoundTrip(links, schema, h, urlNew, minLen, faults.failingInserts, faults.keyReread);
      } else if !faults.hashLookup && st.Short? {
        var k := FirstRow(links, FullColumn, h).value;
        LookupFindsRow(links, k);
      }
    }
  }

  /** The row behind a returned short hash: (short hash, fingerprint, normalised URL). */
  lemma InsertedRow(links: seq<Link>, schema: Schema, minLen: nat, url: Option<string>, hostname: string,
                    codec: Codec, faults: Faults) returns (k: nat)
    requires TableValid(links) && minLen >= 1
    requires InsertUrl(links, schema, minLen, url, hostname, codec, faults).0.Short?
    ensures var (st, after) := InsertUrl(links, schema, minLen, url, hostname, codec, faults);
      && TableValid(after) && k < |after|
      && after[k] == Link(st.s, codec.sha1(NormalizedUrl(codec, url.value)), NormalizedUrl(codec, url.value))
  {
    var (st, after) := InsertUrl(links, schema, minLen, url, hostname, codec, faults);
    InsertRoundTrip(links, schema, minLen, url, hostname, codec, faults);
    var urlNew := NormalizedUrl(codec, url.value);
    var h := codec.sha1(urlNew);
    k := FirstRow(after, FullColumn, h).value;
    assert after[k].short == st.s;
    var j := FirstRow(after, ShortColumn, st.s).value;
    assert after[j].url == urlNew;
    assert j == k by {
      assert after[j].short == after[k].short;
    }
  }

  /**
   * Submitting the same URL again returns the same short hash and adds no
   * row, whatever happened to the inserts the first time.
   */
  lemma InsertIdempotent(links: seq<Link>, schema: Schema, minLen: nat, url: Option<string>, hostname: string,
                         codec: Codec, faults: Faults, faults2: Faults)
    requires TableValid(links) && minLen >= 1
    requires !faults2.hashLookup && !faults2.urlLookup && !faults2.shortLookup
    requires InsertUrl(links, schema, minLen, url, hostname, codec, faults).0.Short?
    ensures var (st, after) := InsertUrl(links, schema, minLen, url, hostname, codec, faults);
      InsertUrl(after, schema, minLen, url, hostname, codec, faults2) == (st, after)
  {
    var (st, after) := InsertUrl(links, schema, minLen, url, hostname, codec, faults);
    var k := InsertedRow(links, schema, minLen, url, hostname, codec, faults);
    InsertKnownUrl(after, schema, minLen, url, hostname, codec, faults2, k);
  }

  /**
   * Two URLs whose fingerprints differ never share a short hash: after the
   * first request yields `s1`, a second request for another fingerprint
   * yields a different short hash.
   */
  lemma DistinctHashesDistinctShorts(links: seq<Link>, schema: Schema, minLen: nat, hostname: string, codec: Codec,
                                     url1: Option<string>, faults1: Faults, url2: Option<string>, faults2: Faults)
    requires TableValid(links) && minLen >= 1
    requires InsertUrl(links, schema, minLen, url1, hostname, codec, faults1).0.Short?
    requires InsertUrl(InsertUrl(links, schema, minLen, url1, hostname, codec, faults1).1,
                       schema, minLen, url2, hostname, codec, faults2).0.Short?
    requires codec.sha1(NormalizedUrl(codec, url1.value)) != codec.sha1(NormalizedUrl(codec, url2.value))
    ensures var (st1, mid) := InsertUrl(links, schema, minLen, url1, hostname, codec, faults1);
      InsertUrl(mid, schema, minLen, url2, hostname, codec, faults2).0.s != st1.s
  {
    var (st1, mid) := InsertUrl(links, schema, minLen, url1, hostname, codec, faults1);
    var (st2, last) := InsertUrl(mid, schema, minLen, url2, hostname, codec, faults2);
    InsertRoundTrip(links, schema, minLen, url1, hostname, codec, faults1);
    InsertRoundTrip(mid, schema, minLen, url2, hostname, codec, faults2);
    InsertAddsNormalizedRow(mid, schema, minLen, url2, hostname, codec, faults2);
    var h1 := codec.sha1(NormalizedUrl(codec, url1.value));
    var h2 := codec.sha1(NormalizedUrl(codec, url2.value));
    var k1 := FirstRow(mid, FullColumn, h1).value;
    assert mid[k1].short == st1.s;
    if last == mid {
      var k2 := FirstRow(mid, FullColumn, h2).value;
      assert mid[k2].short == st2.s;
      assert Cell(mid[k1], FullColumn) == h1 && Cell(mid[k2], FullColumn) == h2;
      assert k1 != k2;
    } else {
      // The second request appended its row after the first one's row.
      var n := |mid|;
      assert last == mid + [Link(st2.s, h2, NormalizedUrl(codec, url2.value))];
      assert k1 < n && last[k1] == mid[k1] && last[n].short == st2.s;
      assert last[k1].short != last[n].short;
    }
  }

  /**
   * The insert request as the handler performs it: the validation and the
   * lookups decide, and a new hash goes through `add_link_to_db`.
   */
  method InsertUrlToDb(db: Database.YuDatabase, url: Option<string>, hostname: string, codec: Codec, faults: Faults)
    returns (st: InsertStatus)
    requires db.Valid()
    modifies db`links
    ensures db.Valid()
    ensures (st, db.links) == InsertUrl(old(db.links), db.schema, db.minUrlLength, url, hostname, codec, faults)
  {
    if !UrlAccepted(url, hostname) {
      return NoResult;
    }
    var urlNew := NormalizedUrl(codec, url.value);
    var linkHash := codec.sha1(urlNew);
    var known := IsHashInDb(db.links, linkHash, faults.hashLookup);
    if known.DatabaseError? {
      return DatabaseProblem;
    }
    if known.value.None? {
      var r := db.AddLinkToDb(linkHash, urlNew, faults.failingInserts, faults.keyReread);
      st := match r
        case DatabaseError => DatabaseProblem
        case Value(None) => NoResult
        case Value(Some(s)) => Short(s);
      return;
    }
    var stored := GetLinkByFullHash(db.links, linkHash, faults.urlLookup);
    if stored.DatabaseError? {
      return DatabaseProblem;
    }
    if stored.value != Some(urlNew) {
      return Collision;
    }
    var short := GetShortForHash(db.links, linkHash, faults.shortLookup);
    st := match short
      case DatabaseError => DatabaseProblem
      case Value(None) => NoResult
      case Value(Some(s)) => Short(s);
  }

  // ------------------------------------------------------------------- GET

  /** A GET path in show mode (`/show/...` or `/s/...`) asks for the link page instead of a redirect. */
  predicate ShowMode(path: string)
  {
    StartsWith(path, "/show/") || StartsWith(path, "/s/")
  }

  /** The text after the leading '/' once the show prefix is removed: the short-hash candidate. */
  function ShortHashCandidate(path: string): (r: string)
    ensures path == "" ==> r == ""
    ensures path != "" ==> |r| < |path| && path[|path| - |r|..] == r
  {
    var requestPath := if StartsWith(path, "/show/") then path[5..]
                       else if StartsWith(path, "/s/") then path[2..]
                       else path;
    if |requestPath| >= 1 then requestPath[1..] else ""
  }

  /** The three ways of asking for a short hash all lead to it. */
  lemma CandidateOfShortPaths(h: string)
    requires IsAlnum(h)
    ensures ShortHashCandidate("/" + h) == h && !ShowMode("/" + h)
    ensures ShortHashCandidate("/s/" + h) == h && ShowMode("/s/" + h)
    ensures ShortHashCandidate("/show/" + h) == h && ShowMode("/show/" + h)
  {
    assert ("/s/" + h)[..3] == "/s/";
    assert ("/show/" + h)[..6] == "/show/";
    assert ("/s/" + h)[2..][1..] == h;
    assert ("/show/" + h)[5..][1..] == h;
    assert !StartsWith("/" + h, "/s/") by {
      if |h| >= 2 { assert ("/" + h)[2] == h[1]; assert IsAlnumChar(h[1]); }
    }
    assert !StartsWith("/" + h, "/show/") by {
      if |h| >= 5 { assert ("/" + h)[5] == h[4]; assert IsAlnumChar(h[4]); }
    }
    assert !StartsWith("/s/" + h, "/show/") by {
      if |h| >= 3 { assert ("/s/" + h)[2] == '/'; }
    }
  }

  /** Which path sanitiser builds the static-file name: `sanitize_path` as written, or the corrected one. */
  datatype Sanitiser = AsWritten | Confined

  /** `docroot + sanitize_path(path)`: the file the GET handler tries to open. */
  function LocalFile(sanitiser: Sanitiser, docroot: string, path: string): (f: string)
    ensures StartsWith(f, docroot)
  {
    var name := match sanitiser
      case AsWritten => Helpers.SanitizePath(path)
      case Confined => Helpers.SanitizePathConfined(path);
    assert (docroot + name)[..|docroot|] == docroot;
    docroot + name
  }

  /** The answer to a GET request. */
  datatype GetResponse = StaticFile(text: string) | HomePage | ShowPage(url: string) | Redirect(url: string)
                       | NotFound | DatabaseProblemPage | InternalError

  /**
   * `do_GET`: a readable file under the document root is served first
   * (`files` maps the readable regular files to their contents); then '/'
   * and '/URLRequest' give the home page; any other path is a short-hash
   * request, answered only when the candidate is non-empty and alphanumeric.
   * `do_GET` builds the file name with `sanitize_path` as written
   * (`AsWritten`); `Confined` is the handler with the corrected sanitiser.
   */
  function HandleGet(path: string, docroot: string, files: map<string, string>, links: seq<Link>, fault: bool,
                     sanitiser: Sanitiser): (r: GetResponse)
    ensures r.Redirect? || r.ShowPage? ==>
      && IsAlnum(ShortHashCandidate(path)) && r.url != ""
      && GetLinkFromDb(links, ShortHashCandidate(path), fault) == Value(Some(r.url))
    ensures r.Redirect? ==> !ShowMode(path)
    ensures r.ShowPage? ==> ShowMode(path)
    ensures r == DatabaseProblemPage ==> fault
    ensures r.StaticFile? ==> LocalFile(sanitiser, docroot, path) in files
    ensures (LocalFile(sanitiser, docroot, path) !in files && path != "/" && path != "/URLRequest"
             && !IsAlnum(ShortHashCandidate(path))) ==> r == NotFound
    ensures r == DatabaseProblemPage <==>
      && LocalFile(sanitiser, docroot, path) !in files && path != "/" && path != "/URLRequest"
      && IsAlnum(ShortHashCandidate(path)) && fault
    ensures (LocalFile(sanitiser, docroot, path) !in files && path != "/" && path != "/URLRequest"
             && IsAlnum(ShortHashCandidate(path)) && !fault
             && GetLinkFromDb(links, ShortHashCandidate(path), false) in {Value(None), Value(Some(""))}) ==> r == NotFound
  {
    var local := LocalFile(sanitiser, docroot, path);
    if local in files then
      (if files[local] != "" then StaticFile(files[local]) else InternalError)
    else if path == "/" || path == "/URLRequest" then HomePage
    else
      var candidate := ShortHashCandidate(path);
      if !IsAlnum(candidate) then NotFound
      else
        match GetLinkFromDb(links, candidate, fault)
        case DatabaseError => DatabaseProblemPage
        case Value(None) => NotFound
        case Value(Some(u)) =>
          if u == "" then NotFound
          else if ShowMode(path) then ShowPage(u)
          else Redirect(u)
  }

  /**
   * As written, "/../x" is served from the file "../x" beside the document
   * root: `sanitize_path` keeps the leading ".." component.
   */
  lemma GetEscapesRoot(docroot: string, files: map<string, string>, links: seq<Link>, fault: bool)
    requires docroot + "../x" in files && files[docroot + "../x"] != ""
    ensures HandleGet("/../x", docroot, files, links, fault, AsWritten) == StaticFile(files[docroot + "../x"])
  {
    Helpers.LeadingParentSurvives();
  }

  /**
   * With the corrected sanitiser every static file served lies under the
   * document root: the name appended to it is relative and has no ".."
   * component.
   */
  lemma ConfinedGetStaysInRoot(path: string, docroot: string, files: map<string, string>, links: seq<Link>,
                               fault: bool)
    ensures var r := HandleGet(path, docroot, files, links, fault, Confined);
      r.StaticFile? ==>
        var name := Helpers.SanitizePathConfined(path);
        && docroot + name in files && r.text == files[docroot + name]
        && ".." !in PosixPath.Split(name) && !StartsWith(name, "/")
  {
    Helpers.ConfinedHasNoParent(path);
    if path == "" {
      assert PosixPath.Split("") == [""];
    }
  }

  /**
   * "/h" redirects to `u` and "/s/h" and "/show/h" show it, each unless a
   * static file of that name exists.
   */
  ghost predicate ServedAt(h: string, u: string, links: seq<Link>, docroot: string, files: map<string, string>,
                 sanitiser: Sanitiser)
  {
    && (LocalFile(sanitiser, docroot, "/" + h) !in files ==>
          HandleGet("/" + h, docroot, files, links, false, sanitiser) == Redirect(u))
    && (LocalFile(sanitiser, docroot, "/s/" + h) !in files ==>
          HandleGet("/s/" + h, docroot, files, links, false, sanitiser) == ShowPage(u))
    && (LocalFile(sanitiser, docroot, "/show/" + h) !in files ==>
          HandleGet("/show/" + h, docroot, files, links, false, sanitiser) == ShowPage(u))
  }

  /** A short-hash path whose link is stored is answered from the link table. */
  lemma ShortPathServed(path: string, u: string, links: seq<Link>, docroot: string, files: map<string, string>,
                 sanitiser: Sanitiser)
    requires IsAlnum(ShortHashCandidate(path)) && u != ""
    requires GetLinkFromDb(links, ShortHashCandidate(path), false) == Value(Some(u))
    requires path != "/" && path != "/URLRequest"
    requires LocalFile(sanitiser, docroot, path) !in files
    ensures HandleGet(path, docroot, files, links, false, sanitiser) == if ShowMode(path) then ShowPage(u) else Redirect(u)
  {
  }

  /** "/h" redirects to the stored URL unless a static file of that name exists. */
  lemma RedirectFromRoot(h: string, u: string, links: seq<Link>, docroot: string, files: map<string, string>,
                 sanitiser: Sanitiser)
    requires IsAlnum(h) && h != "URLRequest" && u != ""
    requires GetLinkFromDb(links, h, false) == Value(Some(u))
    ensures LocalFile(sanitiser, docroot, "/" + h) !in files ==>
              HandleGet("/" + h, docroot, files, links, false, sanitiser) == Redirect(u)
  {
    var path := "/" + h;
    assert path[1..] == h;
    assert !StartsWith(path, "/s/") by {
      if |h| >= 2 { assert path[2] == h[1]; assert IsAlnumChar(h[1]); }
    }
    assert !StartsWith(path, "/show/") by {
      if |h| >= 5 { assert path[5] == h[4]; assert IsAlnumChar(h[4]); }
    }
    assert ShortHashCandidate(path) == h;
    assert path != "/URLRequest" by {
      assert "/URLRequest"[1..] == "URLRequest";
    }
    if LocalFile(sanitiser, docroot, path) !in files {
      ShortPathServed(path, u, links, docroot, files, sanitiser);
    }
  }

  /** "/s/h" shows the stored URL unless a static file of that name exists. */
  lemma ShowFromShortPrefix(h: string, u: string, links: seq<Link>, docroot: string, files: map<string, string>,
                 sanitiser: Sanitiser)
    requires IsAlnum(h) && u != ""
    requires GetLinkFromDb(links, h, false) == Value(Some(u))
    ensures LocalFile(sanitiser, docroot, "/s/" + h) !in files ==>
              HandleGet("/s/" + h, docroot, files, links, false, sanitiser) == ShowPage(u)
  {
    var path := "/s/" + h;
    assert path[..3] == "/s/";
    assert path[2..][1..] == h;
    assert !StartsWith(path, "/show/") by {
      if |path| >= 6 { assert path[2] == '/'; }
    }
    assert ShortHashCandidate(path) == h && ShowMode(path);
    assert path != "/URLRequest" by {
      assert path[2] == '/';
      assert "/URLRequest"[2] == 'R';
    }
    if LocalFile(sanitiser, docroot, path) !in files {
      ShortPathServed(path, u, links, docroot, files, sanitiser);
    }
  }

  /** "/show/h" shows the stored URL unless a static file of that name exists. */
  lemma ShowFromShowPrefix(h: string, u: string, links: seq<Link>, docroot: string, files: map<string, string>,
                 sanitiser: Sanitiser)
    requires IsAlnum(h) && u != ""
    requires GetLinkFromDb(links, h, false) == Value(Some(u))
    ensures LocalFile(sanitiser, docroot, "/show/" + h) !in files ==>
              HandleGet("/show/" + h, docroot, files, links, false, sanitiser) == ShowPage(u)
  {
    var path := "/show/" + h;
    assert path[..6] == "/show/";
    assert path[5..][1..] == h;
    assert ShortHashCandidate(path) == h && ShowMode(path);
    assert path != "/URLRequest" by {
      assert path[2] == 'h';
      assert "/URLRequest"[2] == 'R';
    }
    if LocalFile(sanitiser, docroot, path) !in files {
      ShortPathServed(path, u, links, docroot, files, sanitiser);
    }
  }

  /**
   * A stored, non-empty URL is reached from "/h" by a redirect and shown by
   * "/s/h" and "/show/h", unless a static file of that name exists. The one
   * alphanumeric name that is not a short-hash path is "URLRequest".
   */
  lemma StoredLinkServed(h: string, u: string, links: seq<Link>, docroot: string, files: map<string, string>,
                 sanitiser: Sanitiser)
    requires IsAlnum(h) && h != "URLRequest" && u != ""
    requires GetLinkFromDb(links, h, false) == Value(Some(u))
    ensures ServedAt(h, u, links, docroot, files, sanitiser)
  {
    RedirectFromRoot(h, u, links, docroot, files, sanitiser);
    ShowFromShortPrefix(h, u, links, docroot, files, sanitiser);
    ShowFromShowPrefix(h, u, links, docroot, files, sanitiser);
  }

  /** A SHA-1 hex digest as `hexdigest()` writes it: lower-case hexadecimal digits. */
  predicate IsHexDigest(s: string)
  {
    |s| > 0 && forall i :: 0 <= i < |s| ==> s[i] in "0123456789abcdef"
  }

  /** A non-empty prefix of a hex digest is hex, alphanumeric and not "URLRequest". */
  lemma HexPrefix(h: string, s: string)
    requires IsHexDigest(h) && 0 < |s| <= |h| && h[..|s|] == s
    ensures IsHexDigest(s) && IsAlnum(s) && s != "URLRequest"
  {
    forall i | 0 <= i < |s| ensures s[i] in "0123456789abcdef" && IsAlnumChar(s[i]) {
      assert s[i] == h[i];
    }
    assert "URLRequest"[0] !in "0123456789abcdef";
  }

  /**
   * End to end: once a request has yielded the short hash `s`, a GET of
   * "/s" redirects to the normalised URL and "/s/s" and "/show/s" show it,
   * unless a static file of that name exists.
   */
  lemma ShortHashResolves(links: seq<Link>, schema: Schema, minLen: nat, url: Option<string>, hostname: string,
                          codec: Codec, faults: Faults, docroot: string, files: map<string, string>,
                          sanitiser: Sanitiser)
    requires TableValid(links) && minLen >= 1
    requires InsertUrl(links, schema, minLen, url, hostname, codec, faults).0.Short?
    requires NormalizedUrl(codec, url.value) != ""
    requires IsHexDigest(codec.sha1(NormalizedUrl(codec, url.value)))
    ensures var (st, after) := InsertUrl(links, schema, minLen, url, hostname, codec, faults);
      ServedAt(st.s, NormalizedUrl(codec, url.value), after, docroot, files, sanitiser)
  {
    var (st, after) := InsertUrl(links, schema, minLen, url, hostname, codec, faults);
    var k := InsertedRow(links, schema, minLen, url, hostname, codec, faults);
    LookupFindsRow(after, k);
    HexPrefix(codec.sha1(NormalizedUrl(codec, url.value)), st.s);
    StoredLinkServed(st.s, NormalizedUrl(codec, url.value), after, docroot, files, sanitiser);
  }

  /**
   * The short hash a request yields is a prefix of the hex digest, hence
   * hexadecimal and alphanumeric, so the GET parser accepts it.
   */
  lemma ShortHashIsAlnum(links: seq<Link>, schema: Schema, minLen: nat, url: Option<string>, hostname: string,
                         codec: Codec, faults: Faults)
    requires TableValid(links) && minLen >= 1
    requires InsertUrl(links, schema, minLen, url, hostname, codec, faults).0.Short?
    requires IsHexDigest(codec.sha1(NormalizedUrl(codec, url.value)))
    ensures IsHexDigest(InsertUrl(links, schema, minLen, url, hostname, codec, faults).0.s)
    ensures IsAlnum(InsertUrl(links, schema, minLen, url, hostname, codec, faults).0.s)
  {
    var (st, after) := InsertUrl(links, schema, minLen, url, hostname, codec, faults);
    var k := InsertedRow(links, schema, minLen, url, hostname, codec, faults);
    HexPrefix(codec.sha1(NormalizedUrl(codec, url.value)), st.s);
  }

  // ------------------------------------------------------------------ POST

  /** The answer to a POST request. */
  datatype PostResponse = CheckInput | ResultPage(short: PyValue) | DatabaseProblemResponse
                        | LinkFound(url: string) | NoUrlFound | PostNotFound | ContactForm

  /**
   * The `/URLRequest` dispatch on the value `_insert_url_to_db` returned: a
   * true negative number is a database problem, any other true value the
   * result page, a false one "check your input". In Python 2 a string is
   * never less than a number.
   */
  function UrlRequestResponse(tmp: PyValue): (r: PostResponse)
    ensures r == CheckInput <==> !Truthy(tmp)
    ensures r == DatabaseProblemResponse <==> Truthy(tmp) && tmp.PyInt? && tmp.i < 0
    ensures r.ResultPage? ==> r.short == tmp
    ensures r == CheckInput || r == DatabaseProblemResponse || r.ResultPage?
  {
    if !Truthy(tmp) then CheckInput
    else if tmp.PyInt? && tmp.i < 0 then DatabaseProblemResponse
    else ResultPage(tmp)
  }

  /** What each insert status leads to on `/URLRequest`. */
  lemma UrlRequestOutcomes(st: InsertStatus)
    ensures var r := UrlRequestResponse(StatusValue(st));
      && (r == DatabaseProblemResponse <==> st == DatabaseProblem || st == Collision)
      && (r.ResultPage? <==> st.Short? && st.s != "")
      && (r.ResultPage? ==> r.short == PyStr(st.s))
      && (r == CheckInput <==> st == NoResult || st == Short(""))
  {
  }

  /**
   * The `/Show` form field: when it mentions "yaturl.net", only the text
   * after its last '/' is kept.
   */
  function ExtractShortHash(shortUrl: Option<string>): (r: Option<string>)
    ensures r.None? <==> shortUrl.None?
    ensures shortUrl.Some? && !Contains(shortUrl.value, "yaturl.net") ==> r == shortUrl
    ensures shortUrl.Some? && Contains(shortUrl.value, "yaturl.net") ==>
      && '/' !in r.value && EndsWith(shortUrl.value, r.value)
      && (|r.value| < |shortUrl.value| ==> shortUrl.value[|shortUrl.value| - |r.value| - 1] == '/')
  {
    if shortUrl.Some? && Contains(shortUrl.value, "yaturl.net") then
      var s := shortUrl.value;
      var slash := RFind(s, '/');
      if slash > -1 && s != "" then
        assert s[|s| - |s[slash + 1..]|..] == s[slash + 1..];
        Some(s[slash + 1..])
      else
        assert s[|s| - |s|..] == s;
        Some(s)
    else shortUrl
  }

  /** The short link as the site prints it gives back the short hash. */
  lemma ExtractFromShortLink(prefix: string, h: string)
    requires '/' !in h
    ensures ExtractShortHash(Some(prefix + "yaturl.net/" + h)) == Some(h)
  {
    var s := prefix + "yaturl.net/" + h;
    ContainsInfix(prefix, "yaturl.net", "/" + h);
    assert prefix + "yaturl.net" + ("/" + h) == s;
    assert s[|s| - |h| - 1] == '/';
    assert s[|s| - |h|..] == h;
    RFindIsLast(s, '/', |s| - |h| - 1);
  }

  /** `/Show`: look up the extracted text when it is alphanumeric, else 404. */
  function ShowResponse(shortUrl: Option<string>, links: seq<Link>, fault: bool): (r: PostResponse)
    ensures r.LinkFound? ==>
      ExtractShortHash(shortUrl).Some? && IsAlnum(ExtractShortHash(shortUrl).value)
      && GetLinkFromDb(links, ExtractShortHash(shortUrl).value, fault) == Value(Some(r.url)) && r.url != ""
    ensures r == PostNotFound <==> ExtractShortHash(shortUrl).None? || !IsAlnum(ExtractShortHash(shortUrl).value)
    ensures r == DatabaseProblemResponse ==> fault
    ensures r.LinkFound? || r in {NoUrlFound, PostNotFound, DatabaseProblemResponse}
    ensures r == DatabaseProblemResponse <==>
      ExtractShortHash(shortUrl).Some? && IsAlnum(ExtractShortHash(shortUrl).value) && fault
    ensures r == NoUrlFound <==>
      && ExtractShortHash(shortUrl).Some? && IsAlnum(ExtractShortHash(shortUrl).value) && !fault
      && GetLinkFromDb(links, ExtractShortHash(shortUrl).value, false) in {Value(None), Value(Some(""))}
  {
    var s := ExtractShortHash(shortUrl);
    if s.Some? && IsAlnum(s.value) then
      match GetLinkFromDb(links, s.value, fault)
      case DatabaseError => DatabaseProblemResponse
      case Value(Some(u)) => if u != "" then LinkFound(u) else NoUrlFound
      case Value(None) => NoUrlFound
    else PostNotFound
  }

  /**
   * `do_POST`: `/URLRequest` inserts the `real_URL` field unless the form
   * has a `URL` field (the spam trap), `/Show` looks a short hash up,
   * `/ContactUs` goes to the contact form handling and anything else is 404.
   */
  method HandlePost(db: Database.YuDatabase, path: string, form: map<string, string>, hostname: string,
                    codec: Codec, faults: Faults, showFault: bool)
    returns (r: PostResponse)
    requires db.Valid()
    modifies db`links
    ensures db.Valid()
    ensures path == "/URLRequest" && "URL" !in form ==>
      var (st, after) := InsertUrl(old(db.links), db.schema, db.minUrlLength,
                                   if "real_URL" in form then Some(form["real_URL"]) else None,
                                   hostname, codec, faults);
      r == UrlRequestResponse(StatusValue(st)) && db.links == after
    ensures path == "/URLRequest" && "URL" in form ==> r == CheckInput && db.links == old(db.links)
    ensures path == "/Show" ==>
      r == ShowResponse(if "ShortURL" in form then Some(form["ShortURL"]) else None, db.links, showFault)
      && db.links == old(db.links)
    ensures path == "/ContactUs" ==> r == ContactForm && db.links == old(db.links)
    ensures path !in {"/URLRequest", "/Show", "/ContactUs"} ==> r == PostNotFound && db.links == old(db.links)
  {
    if path == "/URLRequest" {
      if "URL" in form {
        r := CheckInput;
      } else {
        var url := if "real_URL" in form then Some(form["real_URL"]) else None;
        var st := InsertUrlToDb(db, url, hostname, codec, faults);
        r := UrlRequestResponse(StatusValue(st));
      }
    } else if path == "/ContactUs" {
      r := ContactForm;
    } else if path == "/Show" {
      r := ShowResponse(if "ShortURL" in form then Some(form["ShortURL"]) else None, db.links, showFault);
    } else {
      r := PostNotFound;
    }
  }

  // ----------------------------------------------------------------- heads

  /** `_send_head`: the Content-Type chosen from the request path's ending. */
  function ContentType(path: string): (r: string)
    ensures r == "text/css" <==> EndsWith(path, ".css")
    ensures r == "image/vnd.microsoft.icon" <==> EndsWith(path, ".ico")
    ensures r == "text/html" <==> !EndsWith(path, ".css") && !EndsWith(path, ".ico")
  {
    if EndsWith(path, ".css") then "text/css"
    else if EndsWith(path, ".ico") then "image/vnd.microsoft.icon"
    else "text/html"
  }
}
