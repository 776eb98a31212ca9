# yaturl, modelled in Dafny

yaturl is a URL shortener. A submitted URL is normalised and fingerprinted
with SHA-1. The shortest free prefix of that hex digest, of at least the
configured minimum length, becomes the short hash. A GET of `/<short hash>`
redirects to the stored URL, and `/s/<short hash>` or `/show/<short hash>`
shows it. The model covers the following.

- **Link store** (`linkstore.dfy`, `database.dfy`):
  - the `link`, `block` and `access_log` tables, held as sequences;
  - the lookups by short hash and by full hash;
  - the blocking of links and the access log with its redirect count;
  - the key dispatch of the general statistics;
  - the `YuDatabase` object, whose methods change those tables and its lazily opened connection.
  - Short-hash allocation (`add_link_to_db`) is a loop over prefix lengths. It is specified by the recursive function `Allocate`.
- **Request handler** (`requesthandler.dfy`):
  - `_insert_url_to_db`: validation, scheme defaulting, the fingerprint, and the choice between inserting, reusing a short hash, a collision (-2) and a database problem (-1);
  - the GET path parsing;
  - the `/URLRequest` and `/Show` handling of POST requests;
  - the `Content-Type` choice.
- **Reconnecting cursor** (`safedb.dfy`): `SafeCursor`, with a per-cursor retry budget for "server gone" (2006) and "lost connection" (2013) errors. `SafeMySQLConnection` stores its connection arguments for `reconnect` and builds cursors.
- **Pool checkout** (`pool.dfy`): `FreshConnectionQueuePool.do_get`. It pings the connection it hands out and re-establishes a gone or lost connection at most once.
- **Helpers** (`posixpath.dfy`, `helpers.dfy`, `stringformat.dfy`):
  - `sanitize_path`, with POSIX `normpath`, including its rule that exactly two leading slashes are kept;
  - `format_none`.
- **Link statistics and server settings** (`linkstats.dfy`, `server.dfy`):
  - the five attributes of `YuLinkStats`;
  - the public hostname and the address family of `YuServer`.

Several foreign steps are parameters of the model:
- SHA-1 and the urlsplit/IDNA step are the two function fields of `RequestHandler.Codec`.
- Database failures are boolean or set-valued inputs (`fault`, `Faults`, `failing`).
- The server's replies to the reconnecting cursor are sequences of `Reply` values.
- The outcome of a pool ping is a `PingResult`.

Which unique key a MySQL "Duplicate entry" message names is not known, because the table schema is not part of the sources. It is the abstract `LinkStore.Schema`.

Where the code and its documentation disagree, the model follows the code:

- **Retry budget.** A cursor whose budget is 3 sends a statement 4 times before it gives up: once, then once after each of three reconnects (`SafeDb.RunSpecExhausted`). The budget is never reset, and `execute` and `executemany` share it.
- **A missing pooled connection.** A checkout that receives no wrapper at all treats it as a gone server. It then calls `invalidate` on None, which raises AttributeError (`Pool.CheckoutDecision`). It does not re-establish anything.
- **Static files.** `do_GET` builds its static-file name with `sanitize_path` as written. `RequestHandler.HandleGet` takes the sanitiser as a parameter: `AsWritten` is the handler as it is, and `Confined` is the handler with the corrected sanitiser, described under Findings.
- **`add_blockentry`.** The source pastes the short hash and the comment into the SQL text with `%`, unquoted. `LinkStore.BlockLinkAsWritten` models that statement. `LinkStore.BlockLink` is the statement with bound parameters, described under Findings.

Where the sources alone do not decide, the model makes an assumption, listed under "Left out" with its member: which database errors the handler catches, and what the block table accepts.

## Model

| member | source | states |
|---|---|---|
| Common.ContainsInfix | include/yaturl/requesthandler.py:305 | Python's `sub in s` holds for any string with `sub` in the middle |
| Common.Find | include/yaturl/helpers.py:63-65 | `find` is -1 exactly when the character is absent; otherwise it is the index of its first occurrence |
| Common.RFind | include/yaturl/requesthandler.py:495-498 | `rfind` is -1 exactly when the character is absent; otherwise it is the index of its last occurrence |
| Common.Lower | include/yaturl/requesthandler.py:305 | `lower()` keeps the length and lowers every character |
| Common.NatToDecimal | source/server/include/yaturl/server.py:48 | `'%s' % n` is a non-empty string of decimal digits |
| Common.NatDecimalRoundTrip | source/server/include/yaturl/server.py:48 | a formatted natural number reads back as itself |
| Common.IntDecimalRoundTrip | source/server/include/yaturl/server.py:48 | a formatted port reads back as itself and contains no ':' |
| PosixPath.Split | include/yaturl/helpers.py:67 | splitting on '/' gives at least one component, and no component contains '/' |
| PosixPath.JoinSplit | include/yaturl/helpers.py:67 | joining the components of a path with '/' gives the path back |
| PosixPath.SplitNoSlash | include/yaturl/helpers.py:67 | a string without '/' is one component |
| PosixPath.SplitAfterComponent | include/yaturl/helpers.py:67 | `a/b` splits into `a` followed by the components of `b` |
| PosixPath.SplitJoin | include/yaturl/helpers.py:67 | splitting joined slash-free components gives those components back |
| PosixPath.LeadingSlashes | include/yaturl/helpers.py:67 | normpath keeps two leading slashes exactly when there are exactly two, one for one or three or more, and none for a relative path |
| PosixPath.Slashes | include/yaturl/helpers.py:67 | the prefix normpath writes consists of exactly n slashes |
| PosixPath.Step | include/yaturl/helpers.py:67 | one component processed by normpath, as a function (what it keeps is stated by FoldNormalized and FoldKeepsInputComponents) |
| PosixPath.Fold | include/yaturl/helpers.py:67 | normpath never keeps more components than it was given |
| PosixPath.NormComponents | include/yaturl/helpers.py:67 | the kept components are no more than the split input |
| PosixPath.NormPath | include/yaturl/helpers.py:67 | `normpath` never returns an empty string ('.' stands for nothing) |
| PosixPath.NormalizedJoinHead | include/yaturl/helpers.py:67 | normalised components join to a text that starts with the first component, not with '/' |
| PosixPath.NormPathKeepsSlashes | include/yaturl/helpers.py:67 | an absolute path comes out with exactly the leading slashes normpath counts (two for exactly two, else one), and no further slash follows them |
| PosixPath.FoldNormalized | include/yaturl/helpers.py:67 | processing components keeps the kept list normalised: no '' or '.', and '..' only as a leading run of a relative path |
| PosixPath.FoldKeepsInputComponents | include/yaturl/helpers.py:67 | normpath invents no components: each one kept comes from the input |
| PosixPath.NormPathShape | include/yaturl/helpers.py:67 | the result is '.' or the leading slashes followed by the normalised components, and a relative result splits back into those components |
| PosixPath.SplitChars | include/yaturl/helpers.py:67 | splitting invents no characters |
| PosixPath.JoinChars | include/yaturl/helpers.py:67 | joining adds only '/' |
| PosixPath.NormPathChars | include/yaturl/helpers.py:67 | normpath adds only '/' and '.' to the characters of its input |
| Helpers.DropQuery | include/yaturl/helpers.py:63-65 | nothing from the first '?' on survives; the result is a prefix of the path and is the path itself when there is no '?' |
| Helpers.SanitizeDropsQuery | include/yaturl/helpers.py:57-67 | a false (empty) path gives '', any other path gives a non-empty result, and the result contains no '?' |
| Helpers.SanitizeNormalises | include/yaturl/helpers.py:59-67 | a path with one leading slash loses it and comes out as '.' or normalised relative components |
| Helpers.StripRoot | include/yaturl/helpers.py:59-61 | a path starting with '/' loses exactly that one character; any other path is unchanged |
| Helpers.SanitizePath | include/yaturl/helpers.py:50-67 | the result is '' exactly for a false (empty) path |
| Helpers.DropQueryKeepsPrefix | include/yaturl/helpers.py:63-65 | a prefix without '?' survives the query cut |
| Helpers.SanitizeDoubleSlash | include/yaturl/helpers.py:59-67 | for any relative p, "//" + p comes out with exactly one leading slash ("//x" gives "/x"), because only one character is stripped and normpath keeps a single leading slash |
| Helpers.SanitizeTripleSlash | include/yaturl/helpers.py:59-67 | for any relative p, "///" + p comes out with exactly two leading slashes ("///x" gives "//x"), because normpath keeps exactly two |
| Helpers.RootedStaysAbsolute | include/yaturl/helpers.py:59-67 | a path with two or more leading slashes stays absolute after sanitising |
| Helpers.ParentXComponents | include/yaturl/helpers.py:67 | "../x" splits into ".." and "x", and relative normalisation keeps both |
| Helpers.ConfinedComponents | include/yaturl/helpers.py:67 | rooted normalisation of a query-free path keeps normalised components without '?' |
| Helpers.RootedJoinShape | include/yaturl/helpers.py:67 | rooted-normalised components join to a relative text that splits back into them and has no '..' |
| Helpers.ConfinedAgreesRelative | include/yaturl/helpers.py:50-67 | on a path that is relative after one slash is stripped and keeps no '..', the two sanitisers agree |
| Helpers.LeadingParentSurvives | include/yaturl/helpers.py:52-67 | as written, "/../x" gives "../x", a path with a '..' component, although the function's comment promises to remove '..' |
| Helpers.ConfinedHasNoParent | include/yaturl/helpers.py:52-67 | the corrected sanitiser never yields a '..' component, a leading slash or a '?', and gives '' only for '' |
| Helpers.LeadingParentStays | include/yaturl/helpers.py:67 | once a relative path starts with '..', normpath never removes that '..' |
| Helpers.FoldModesAgree | include/yaturl/helpers.py:67 | where no '..' survives, rooted and relative normalisation agree |
| Helpers.ConfinedAgreesWithoutParent | include/yaturl/helpers.py:50-67 | the corrected and the written sanitiser agree exactly when the path is empty, or is relative after one slash is stripped and keeps no '..' under normpath; so they differ on "//x" ("x" against "/x") and on "/../x" |
| StringFormat.FormatNone | source/server/include/yaturl/helpers/stringformater.py:23-34 | None becomes "n/A", any other value is returned unchanged, and the result is never None |
| StringFormat.FormatNoneIdempotent | source/server/include/yaturl/helpers/stringformater.py:31-34 | applying `format_none` twice gives the same as once |
| LinkStore.FirstRow | include/yaturl/database/database.py:111-131 | the first matching row, or none exactly when no row has that value |
| LinkStore.GetShortForHash | include/yaturl/database/database.py:111-131 | a database error exactly when the query fails; otherwise a short hash exactly when the full hash is stored, taken from a row with that full hash |
| LinkStore.GetLinkByFullHash | include/yaturl/database/database.py:134-152 | a database error exactly when the query fails; otherwise a URL exactly when the full hash is stored, from a row with that full hash |
| LinkStore.GetLinkFromDb | include/yaturl/database/database.py:178-196 | a database error exactly when the query fails; otherwise a URL exactly when the short hash is stored, from a row with that short hash |
| LinkStore.IsHashInDb | include/yaturl/database/database.py:199-218 | a database error exactly when the query fails; otherwise a link id (at least 1) exactly when the full hash is stored, and that id's row has the hash |
| LinkStore.FirstBlockOf | include/yaturl/database/database.py:275-286 | the first block row of a link id, or none exactly when the link has no block row |
| LinkStore.IsHashBlocked | include/yaturl/database/database.py:263-289 | an empty short hash gives None without a query; otherwise a failure raises, an unknown short hash gives None, and a known one gives a row exactly when its link has a block entry; the row holds that link's id and short hash and the entry date and comment of one of its block rows |
| LinkStore.BlockLink | include/yaturl/database/database.py:341-360 | with bound parameters: a failure changes nothing; a short hash with no link appends a block with a NULL link id; a known link gets one block row with the server time and the comment, unless it has one already |
| LinkStore.BlockLinkAsWritten | include/yaturl/database/database.py:350-356 | with the values pasted in unquoted, a word-like short hash or comment (read by MySQL as an unknown column) leaves the block table unchanged; other values behave as BlockLink |
| LinkStore.SplicedWordNotBlocked | include/yaturl/database/database.py:350-356 | short hash "ab12" with comment "spam" leaves an unblocked link unblocked as written, while the bound-parameter insert blocks it |
| LinkStore.BlockLinkBlocks | include/yaturl/database/database.py:341-360 | blocking keeps the block table consistent and a failure changes nothing; afterwards a known short hash is blocked, carrying the new entry date and comment unless it was blocked before, and reported as before otherwise |
| LinkStore.BlockLinkKeepsValid | include/yaturl/database/database.py:341-360 | adding a block row keeps every block's link id in range and no link blocked twice; a failed query adds nothing |
| LinkStore.BlockedAfterAppend | include/yaturl/database/database.py:341-360 | once a block row is added for a link that had none, the link is reported blocked with the new entry date and comment |
| LinkStore.FirstBlockOfAppend | include/yaturl/database/database.py:275-280 | a block appended for a link that had none is that link's first block row |
| LinkStore.LookupFindsRow | include/yaturl/database/database.py:111-218 | in a consistent table, every stored row is found by all four lookups, by its short hash and by its full hash |
| LinkStore.InsertOutcomeOf | include/yaturl/database/database.py:302-319 | an insert fails with a non-duplicate error exactly when the database fails, and succeeds exactly when neither the short nor the full hash is stored |
| LinkStore.Allocate | include/yaturl/database/database.py:300-319 | the loop from prefix length i on, as a function of the table (its properties are the Allocate lemmas below) |
| LinkStore.AllocateInserts | include/yaturl/database/database.py:300-319 | a row is added only when the result is a short hash `url_hash[:i]` with min ≤ i < len(url_hash); the row is (short, full, link) and is the only one added; every shorter prefix tried first was a duplicate and was stored already |
| LinkStore.AllocateSkips | include/yaturl/database/database.py:300-319 | a duplicate naming neither key 1 nor key 2 moves the loop on to the next prefix length |
| LinkStore.AllocateRunsTo | include/yaturl/database/database.py:300-319 | a run of duplicates on other keys is skipped: the loop continues at the length after the run |
| LinkStore.AllocateReportsFault | include/yaturl/database/database.py:300-319 | when the first INSERT that is not such a duplicate fails, or is a key-2 duplicate whose re-read fails, the loop raises and adds no row |
| LinkStore.AllocateStops | include/yaturl/database/database.py:300-319 | past the last prefix the loop returns None; a successful INSERT returns the prefix and adds its row; key 2 re-reads the hash, key 1 gives None, another error raises |
| LinkStore.AllocatePreservesValid | include/yaturl/database/database.py:300-319 | allocation with a minimum length of at least 1 keeps short and full hashes unique, with each short hash a proper prefix of its full hash |
| LinkStore.InsertedRowKeepsValid | include/yaturl/database/database.py:304-309 | the row a successful INSERT of a prefix of length at least 1 adds keeps the link and block tables consistent |
| LinkStore.AppendKeepsValid | include/yaturl/database/database.py:304-309 | inserting a row with a fresh short hash that is a proper prefix of a fresh full hash keeps the table consistent |
| LinkStore.AllocateRoundTrip | include/yaturl/database/database.py:300-319 | after an insert returns s, `get_link_from_db(s)` gives the link and `get_short_for_hash_from_db(url_hash)` gives s |
| LinkStore.FirstRowAppended | include/yaturl/database/database.py:304-309 | a value that was absent is found in the newly inserted row |
| LinkStore.AllocateFreshHash | include/yaturl/database/database.py:300-319 | for a full hash not yet stored, a returned short hash always comes with an inserted row |
| LinkStore.AllocateKnownHash | include/yaturl/database/database.py:313-314 | when "key 2" is the full-hash key, a stored full hash gives back the short hash already stored, with no row added |
| LinkStore.AllocateFindsFreePrefix | include/yaturl/database/database.py:300-319 | when short-hash clashes are neither key 1 nor key 2, a row is added exactly when some prefix in range is free; otherwise the result is None |
| LinkStore.LogAccess | include/yaturl/database/database.py:323-338 | the access log only grows, keeping its old entries; a failing insert leaves it unchanged |
| LinkStore.IdsWithShort | include/yaturl/database/database.py:323-338 | the link ids the access-log insert selects all belong to rows with that short hash |
| LinkStore.IdsWithShortCount | include/yaturl/database/database.py:323-338 | in a consistent table that selection has one id for a stored short hash and none otherwise |
| LinkStore.StatisticsForHash | include/yaturl/database/database.py:363-385 | a failing query gives None; otherwise the number of logged accesses to the short hash |
| LinkStore.RedirectsAppend | include/yaturl/database/database.py:363-385 | appending log entries for a short hash raises its count by their number |
| LinkStore.LogAccessCounts | include/yaturl/database/database.py:323-338 | logging an access adds one to the short hash's count when the short hash is stored and nothing fails, and nothing otherwise |
| LinkStore.GeneralStatistics | include/yaturl/database/database.py:426-438 | a failing query or an unknown time range gives None; a grouped range gives all rows; any other known range gives the first row |
| Database.MinUrlLength | include/yaturl/database/database.py:46-51 | the minimum length is the configured value when it is at least 1; a missing, zero or negative option gives 4; it is never below 1 |
| Database.YuDatabase.constructor | include/yaturl/database/database.py:39-44 | no connection yet, and the minimum length from the configuration |
| Database.YuDatabase.SetMinUrlLength | include/yaturl/database/database.py:46-51 | a present option sets the minimum as MinUrlLength says; a missing option keeps the current minimum |
| Database.YuDatabase.GetCursor | include/yaturl/database/database.py:68-79 | a connection is taken from the pool only when there is none; an existing connection is reused; the tables stay consistent |
| Database.YuDatabase.Close | include/yaturl/database/database.py:92-101 | afterwards there is no connection; the tables stay consistent |
| Database.YuDatabase.AddLinkToDb | include/yaturl/database/database.py:292-319 | the loop's result and table are those of Allocate from the configured minimum length, and the table stays consistent |
| Database.YuDatabase.AddLogEntry | include/yaturl/database/database.py:323-338 | the tables stay consistent; the access log grows by the entry for the short hash; the redirect count grows by one exactly when the short hash is stored and nothing fails |
| Database.YuDatabase.AddBlockEntry | include/yaturl/database/database.py:341-360 | the block table is updated as BlockLink says, stamped with the server time, and stays consistent |
| RequestHandler.StatusValue | include/yaturl/requesthandler.py:290-304 | the four statuses are a string, None, -1 and -2 |
| RequestHandler.WithScheme | include/yaturl/requesthandler.py:310-311 | the result contains "://" and ends with the input URL; it is the input unchanged exactly when the input already had "://" |
| RequestHandler.InsertUrl | include/yaturl/requesthandler.py:290-350 | the status and the table after `_insert_url_to_db`, as a function (its properties are the Insert lemmas below) |
| RequestHandler.InsertRejectsInvalid | include/yaturl/requesthandler.py:305-348 | an empty URL, one of 4096 characters or more, or one containing the server hostname gives None and leaves the table unchanged |
| RequestHandler.OwnLinkRejected | include/yaturl/requesthandler.py:305 | any URL containing the hostname, in any mix of case, is refused |
| RequestHandler.InsertAddsNormalizedRow | include/yaturl/requesthandler.py:313-325 | a request adds a row only when it returns a short hash, and the row is (short hash, SHA-1 of the re-split URL, re-split URL), with the short hash a proper prefix of at least the minimum length |
| RequestHandler.InsertKnownUrl | include/yaturl/requesthandler.py:333-338 | a stored hash whose stored URL equals the re-split URL gives the stored short hash and inserts nothing |
| RequestHandler.InsertCollision | include/yaturl/requesthandler.py:329-342 | -2 is returned exactly when the hash is stored with a different URL, and then nothing is inserted |
| RequestHandler.InsertDatabaseProblem | include/yaturl/requesthandler.py:317-344 | -1 is returned only when some database call failed, and then nothing is inserted |
| RequestHandler.InsertReportsFault | include/yaturl/requesthandler.py:290-344 | every failing call the request reaches gives -1 with no row added: the hash lookup, the URL lookup of a stored hash, the short-hash lookup when the stored URL matches, and the first INSERT of the allocation that is not a plain duplicate when it fails or its key-2 re-read fails |
| RequestHandler.AllocateErrorNeedsFault | include/yaturl/database/database.py:317-319 | allocation raises only when an insert or the re-read failed |
| RequestHandler.InsertRoundTrip | include/yaturl/requesthandler.py:290-350 | the table stays consistent; a returned short hash leads back to the re-split URL, and the fingerprint leads to the short hash |
| RequestHandler.InsertedRow | include/yaturl/requesthandler.py:290-350 | a request that returns a short hash leaves a consistent table holding the row (short hash, fingerprint, re-split URL) |
| RequestHandler.InsertIdempotent | include/yaturl/requesthandler.py:319-338 | submitting the same URL again returns the same short hash and adds no row |
| RequestHandler.DistinctHashesDistinctShorts | include/yaturl/requesthandler.py:313-325 | URLs with different fingerprints never receive the same short hash |
| RequestHandler.InsertUrlToDb | include/yaturl/requesthandler.py:290-350 | the handler's status and the table afterwards are those of InsertUrl, and the table stays consistent |
| RequestHandler.ShowMode | include/yaturl/requesthandler.py:383-390 | show mode exactly for paths starting with "/show/" or "/s/" |
| RequestHandler.ShortHashCandidate | include/yaturl/requesthandler.py:382-394 | the candidate is a suffix of the request path, shorter than any non-empty path |
| RequestHandler.CandidateOfShortPaths | include/yaturl/requesthandler.py:385-398 | "/h", "/s/h" and "/show/h" all lead to the short-hash candidate h; only the last two select show mode |
| RequestHandler.LocalFile | include/yaturl/requesthandler.py:361-363 | the file looked up is the document root followed by the sanitised path |
| RequestHandler.HandleGet | include/yaturl/requesthandler.py:353-426 | with the chosen sanitiser building the file name: a redirect or show page needs an alphanumeric candidate whose stored URL is non-empty; redirects only outside show mode, show pages only in it; a database page only on a failure; a static file only when it exists; a non-alphanumeric candidate that is no static file and not the home page gives 404; for an alphanumeric candidate on that path, the database page exactly when the lookup fails, and 404 when it finds no URL or an empty one |
| RequestHandler.GetEscapesRoot | include/yaturl/requesthandler.py:361-369 | as written, a GET of "/../x" serves the file docroot + "../x", beside the document root, whenever it exists and is non-empty |
| RequestHandler.ConfinedGetStaysInRoot | include/yaturl/requesthandler.py:361-369 | with the corrected sanitiser, a served static file is docroot followed by a relative name with no '..' component |
| RequestHandler.ShortPathServed | include/yaturl/requesthandler.py:399-418 | a short-hash path whose link is stored redirects to it or shows it, according to the show mode |
| RequestHandler.StoredLinkServed | include/yaturl/requesthandler.py:383-418 | a stored non-empty URL is redirected to from "/h" and shown from "/s/h" and "/show/h" |
| RequestHandler.RedirectFromRoot | include/yaturl/requesthandler.py:383-418 | "/h" for a stored non-empty URL redirects to it, because it is neither a show path nor "/URLRequest" |
| RequestHandler.ShowFromShortPrefix | include/yaturl/requesthandler.py:383-418 | "/s/h" for a stored non-empty URL shows it |
| RequestHandler.ShowFromShowPrefix | include/yaturl/requesthandler.py:383-418 | "/show/h" for a stored non-empty URL shows it |
| RequestHandler.ShortHashResolves | include/yaturl/requesthandler.py:290-418 | end to end: once a request has given the short hash s, "/s" redirects to the re-split URL, and "/s/s" and "/show/s" show it |
| RequestHandler.ShortHashIsAlnum | include/yaturl/requesthandler.py:282-288 | a short hash cut from a hex digest is hexadecimal and passes the GET handler's `isalnum` test |
| RequestHandler.HexPrefix | include/yaturl/requesthandler.py:282-288 | every non-empty prefix of a hex digest is hexadecimal, passes `isalnum` and differs from "URLRequest" |
| RequestHandler.UrlRequestResponse | include/yaturl/requesthandler.py:447-467 | "check your input" exactly for a false status; the database-problem page exactly for a negative number; otherwise the result page showing the status |
| RequestHandler.UrlRequestOutcomes | include/yaturl/requesthandler.py:447-475 | -1 and -2 give the database-problem page, a non-empty short hash gives the result page showing it, and None gives "check your input" |
| RequestHandler.ExtractShortHash | include/yaturl/requesthandler.py:492-497 | text without "yaturl.net" is unchanged; with it, what is kept is a suffix without '/' that directly follows the last '/' |
| RequestHandler.ExtractFromShortLink | include/yaturl/requesthandler.py:492-497 | the short link as printed, `...yaturl.net/h`, gives back h |
| RequestHandler.ShowResponse | include/yaturl/requesthandler.py:498-513 | a link is shown only for an alphanumeric text whose stored URL is non-empty; 404 exactly when the text is missing or not alphanumeric; the database page exactly when the lookup of an alphanumeric text fails; the not-found text exactly when that lookup succeeds with no URL or an empty one |
| RequestHandler.HandlePost | include/yaturl/requesthandler.py:428-521 | `/URLRequest` inserts `real_URL` unless the form has a `URL` field, and answers by the returned status; `/Show`, `/ContactUs` and other paths change no table |
| RequestHandler.ContentType | include/yaturl/requesthandler.py:152-157 | text/css exactly for ".css", the icon type exactly for ".ico", text/html exactly for everything else |
| SafeDb.Repeat | include/safedb.py:48-55 | the statement is sent again, unchanged, on every retry |
| SafeDb.RunSpec | include/safedb.py:42-58 | the statement is sent at least once, and there are never more reconnects than sends |
| SafeDb.RunSpecBudget | include/safedb.py:42-58 | the reconnects never exceed the budget, and every send but the first follows a reconnect; a re-raised gone/lost error means the budget was used up; a re-raised error is one the server sent |
| SafeDb.OtherErrorReraised | include/safedb.py:56-58 | an error other than gone/lost is re-raised unchanged after one send, with no reconnect |
| SafeDb.RunSpecExhausted | include/safedb.py:42-58 | with budget n and a server that keeps going away, the statement is sent n+1 times with n reconnects, and the last error is re-raised |
| SafeDb.RunSpecRecovers | include/safedb.py:42-58 | k ≤ budget gone/lost errors followed by success end in success after k reconnects and k+1 sends |
| SafeDb.SafeMySQLConnection.constructor | include/safedb.py:88-99 | the stored arguments lack 'logger'; the logger is the keyword value or None; the first initialisation uses those arguments |
| SafeDb.SafeMySQLConnection.Send | include/safedb.py:48 | one statement is sent and the server's next answer consumed |
| SafeDb.SafeMySQLConnection.Reconnect | include/safedb.py:111-120 | close, a warning only when a logger is set, then re-initialisation with the stored arguments |
| SafeDb.SafeMySQLConnection.NewCursor | include/safedb.py:123-131 | the requested class, or the connection's own, is used; the retry count is passed only to SafeCursor, and defaults to 3 |
| SafeDb.SafeCursor.constructor | include/safedb.py:36-39 | a safe cursor with the given retry count, 3 by default |
| SafeDb.SafeCursor.Plain | include/safedb.py:127-131 | a plain cursor, which never retries |
| SafeDb.SafeCursor.Run | include/safedb.py:42-77 | result, sends, reconnects and the remaining budget are those of RunSpec; the budget goes down by exactly the number of reconnects and is never reset |
| SafeDb.SafeCursor.ExecuteQuery | include/safedb.py:42-58 | `execute` sends the same query and arguments on every retry and shares the cursor's budget |
| SafeDb.SafeCursor.ExecuteManyQuery | include/safedb.py:61-77 | `executemany` sends the same query and rows on every retry and shares the cursor's budget |
| Pool.CheckoutDecision | include/yaturl/database/pool.py:43-64 | untouched exactly when a wrapper and raw connection exist and the ping succeeds; re-established exactly for a missing raw connection or a gone/lost ping; propagated exactly for other codes; AttributeError exactly without a wrapper |
| Pool.ConnectionRecord.constructor | include/yaturl/database/pool.py:44 | a wrapper around a raw connection, never invalidated or reconnected |
| Pool.ConnectionRecord.Invalidate | include/yaturl/database/pool.py:56 | the raw connection is dropped and the error recorded |
| Pool.ConnectionRecord.GetConnection | include/yaturl/database/pool.py:57 | a new raw connection is attached |
| Pool.FreshConnectionQueuePool.constructor | include/yaturl/database/pool.py:68-73 | the connection settings, pool size and overflow come straight from the configuration |
| Pool.FreshConnectionQueuePool.PingConnection | include/yaturl/database/pool.py:60-64 | a missing wrapper or raw connection raises SERVER_GONE without a ping; otherwise the ping's own outcome |
| Pool.FreshConnectionQueuePool.EstablishNewConnection | include/yaturl/database/pool.py:55-57 | invalidate with the error, then exactly one new raw connection |
| Pool.FreshConnectionQueuePool.DoGet | include/yaturl/database/pool.py:43-52 | the decision is CheckoutDecision; at most one re-establishment happens, and in every other case the wrapper is left untouched |
| LinkStats.CreationTime | source/server/include/yaturl/stats/linkstats.py:33-36 | "Unknown" exactly when the entry date is false; otherwise the date followed by " (UTC)" and nothing else (six characters longer than the date) |
| LinkStats.LinkStatsOf | source/server/include/yaturl/stats/linkstats.py:28-46 | all five attributes are None exactly for a None short hash or one without details; YuDatabaseError exactly when the details read fails; TypeError exactly when a redirect-date read gave None; otherwise column 3, the creation time, the two dates and the redirect count, all for the same short hash |
| LinkStats.YuLinkStats.constructor | source/server/include/yaturl/stats/linkstats.py:28-46 | the attributes are those LinkStatsOf gives; after a TypeError, `link_address` and `creation_time` are already set |
| Server.Hostname | source/server/include/yaturl/server.py:45-52 | 'yaturl.net' without a configured hostname, whatever the port; the configured name unchanged for port 80; otherwise the name, ':' and the decimal port |
| Server.HostnamePortReadsBack | source/server/include/yaturl/server.py:47-48 | the port of a suffixed hostname is what follows its last ':', even when the configured name contains colons |
| Server.AddressFamilyOf | source/server/include/yaturl/server.py:62-67 | AF_INET6 exactly when the host contains ':' |
| Server.YuServer.constructor | source/server/include/yaturl/server.py:38-58 | the address family from the host, the hostname from Hostname, and the two switches from the configuration |
| Server.YuServer.SetAddressFamily | source/server/include/yaturl/server.py:62-67 | the address family is set as AddressFamilyOf says |

## Left out

- SHA-1 (`_get_hash`) and `_split_url` (urlsplit, IDNA encoding, urlunsplit) are foreign library code. They are uninterpreted functions; the model only assumes that SHA-1 returns lower-case hex where the end-to-end GET lemma needs it.
- MySQL itself is left out:
  - SQL parsing, the driver's error messages, and the "key 1"/"key 2" suffix matching are replaced by the abstract `Schema` and the `InsertOutcome` classification.
  - Which queries fail is an input.
  - Transactions and `commit` are not modelled.
- The SQL of the statistics queries (CURDATE, WEEK, GROUP BY) is left out. Only the key dispatch is modelled, with the returned rows as an input.
- `get_link_details`, `get_date_of_first_entry` and `get_date_of_last_entry` are inputs of `LinkStats.StatsSource`. They are not modelled over the tables.
- `get_link_creation_timestamp` and `is_shorthash_in_db` are not part of this model; no core operation uses them.
- HTTP response writing is left out, because it is socket and file I/O:
  - templates and `read_template`;
  - `_send_301`, `_send_404`, `_send_internal_server_error` and `_send_database_problem`;
  - logging.
  The model returns which response is sent.
- Static files are a map from file name to contents. A failing `open` is a missing key.
- `/ContactUs` and `_send_mail` (SMTP) are left out; the POST dispatch stops at `ContactForm`.
- The threaded server (`serve_forever`, `shutdown`, `ThreadingMixIn`) and concurrent requests are left out. Allocation is modelled one request at a time.
- Socket binding in `YuServer.__init__` is left out, and so is the logger.
- The pool's queue (`QueuePool.do_get`), `ping` and `invalidate` are abstract: the ping's outcome is a parameter.
- `ConnectionCreator.__call__` opens a plain driver connection rather than a `SafeMySQLConnection`. It is not part of this model.
- Text is ASCII for `lower()` and `isalnum()`; Unicode case mapping is not modelled.
- Pool.ConnectionRecord: the wrapper records the error codes passed to `invalidate` instead of the exception objects.
- RequestHandler.HandleGet: a failing `get_link_from_db` gives the database-problem page. `do_GET` catches `YuDbError` from `yaturl.db`, while `YuDatabase` raises `YuDatabaseError` from `yaturl/database/error.py`, which is not part of this model; unless that class derives from `YuDbError`, the error escapes the handler instead.
- RequestHandler.InsertUrl: every database failure gives -1, as the documented contract says; `_insert_url_to_db` catches `YuDbError` only, so the same class question decides whether a `YuDatabaseError` gives -1 or escapes.
- RequestHandler.ShowResponse: a failing lookup gives the database-problem page, under the same assumption about the error classes.
- LinkStore.BlockLinkAsWritten: only a lower-case word-like value is modelled as rejected by MySQL; other pasted values (digits only, upper case, quotes, spaces, SQL text) are taken to behave as bound parameters, although MySQL parses them as SQL.
- LinkStore.BlockLink: a short hash with no link inserts a block whose link id is NULL, assuming the column allows NULL; a second block for the same link is refused, assuming a unique index on `block.link_id`. The table schema is not part of the sources.
- Database.YuDatabase.AddBlockEntry: the values are bound as parameters, the corrected statement; the statement as written is `LinkStore.BlockLinkAsWritten`.

## Findings

| source | as written | input that shows it | evidently intended | confidence | as-written member | corrected member |
|---|---|---|---|---|---|---|
| include/yaturl/helpers.py:50-67 | only one leading character is stripped before `normpath`, which keeps a leading '..' of a relative path | the request path "/../x" gives "../x", so the GET handler opens docroot + "../x", outside the document root (`RequestHandler.GetEscapesRoot`) | remove every '..', as the comment says, so the result stays under the document root (`RequestHandler.ConfinedGetStaysInRoot`) | high, not executed | Helpers.LeadingParentSurvives | Helpers.SanitizePathConfined |
| include/yaturl/database/database.py:350-356 | the short hash and the comment are pasted into the SQL text with `%`, unquoted | short hash "ab12" with comment "spam": MySQL reads both as unknown columns and rejects the statement; the DatabaseError is swallowed, so the link stays unblocked | pass both values as query parameters, as every other query does | medium, not executed | LinkStore.SplicedWordNotBlocked | LinkStore.BlockLink |
