# update_checker_app: the request handlers, in Dafny

The update checker is a small Flask service. A client library such as
`praw` checks in with `PUT /check`, sending its package name, package
version, platform and Python version. The service records the check and
answers with the package's current version. That version comes from the
pre-release channel when the client runs a pre-release, and from the
stable channel otherwise. `GET /packages` reports the last day's usage
per package: rows counted, checks summed, largest first. The report is
shared with two browser origins through `Access-Control-Allow-Origin`.

This project models `update_checker_app/controllers.py`:

- `text.dfy` (module `Text`): the three Python 2 string operations the
  handler applies to client input. These are the substring test
  `needle in hay`, `s.rsplit('.', 1)[-1]` and `s.strip()`, the last with
  the whitespace set of Python 2.7's `unicode.isspace()`.
- `check.dfy` (module `CheckEndpoint`): `check()` as a total function from
  a request to an outcome. The outcomes are 403, 400, 422, or success;
  success carries the arguments of `record_check` and the pre-release flag
  passed to `get_current_version`. The helpers `normalize` and
  `standard_release` are parameters (`Helpers`), so every result holds
  whatever they compute.
- `report.dfy` (module `UsageReport`): the `/packages` SQL query as pure
  functions over the `installation` and `package` tables: filter, join,
  group, count, sum, order. Beside it is a reference predicate `IsReport`
  that every answer of the query satisfies; it fixes no order between
  groups with equal `unique`.
- `packages.dfy` (module `PackagesEndpoint`): the loop that turns rows into
  JSON objects, the `jsonify` response as a class whose headers the
  handler updates, and the `Origin` gate.
- `wrappers.dfy` (module `Wrappers`): `Option`.

Behaviour worth noting:

- An empty package name is refused with 422, not 400. The allow-list
  guard (controllers.py lines 36-37) runs before the blank-field guard
  (lines 43-44), and `''` is not allow-listed. The test
  `test_check__unsupported_package` expects this. See
  `EmptyPackageNameIsUnprocessable`.
- Groups with equal `unique` have no defined order. The query's only
  ordering is `ORDER BY count(installation.id) DESC` (line 66), so their
  order is up to the database. `IsReport` allows any tie order, and
  `ReportsAgreeUpToTies` shows that two answers hold the same entries.
  `Report` computes one particular answer.
- The package name is cut to its last dotted segment first, and that
  segment is then normalized (line 35). So `normalize` never sees the
  dotted prefix.

## Model

| member | source | states |
|---|---|---|
| CheckEndpoint.Check | update_checker_app/controllers.py:25-49 | the check is recorded only for an allow-listed name with non-empty cleaned version, platform and Python version, at the client's address; the version carries no surrounding whitespace; the pre-release flag is `not standard_release(version)` |
| CheckEndpoint.StatusCode | update_checker_app/controllers.py:27-44 | the HTTP status of each outcome: 403, 400, 422, or 200 for a recorded check whose helpers return; `NotRequestsAgentIsForbidden` states it for a request |
| CheckEndpoint.AgentAccepted | update_checker_app/controllers.py:27 | the User-Agent guard: the header, or "" when absent, contains `python-requests` (characterised by `ForbiddenIffNoAgentToken`) |
| CheckEndpoint.HasRequiredKeys | update_checker_app/controllers.py:29-32 | the body guard: a JSON body that is not empty and holds `package_name`, `package_version`, `platform` and `python_version` |
| CheckEndpoint.PackageName | update_checker_app/controllers.py:35 | the name that is allow-listed and recorded: the normalized last dotted segment of `package_name` |
| CheckEndpoint.Admit | update_checker_app/controllers.py:36-49 | the guards after the key check, on the cleaned name and the raw values (characterised by `AdmitOkIffClean`) |
| CheckEndpoint.ForbiddenIffNoAgentToken | update_checker_app/controllers.py:27-28 | 403 exactly when the User-Agent, or "" when it is absent, has no occurrence of `python-requests`, whatever the body is |
| CheckEndpoint.NotRequestsAgentIsForbidden | update_checker_app_tests.py:64-67 | a request whose User-Agent is `not_requests` gets status 403, whatever its body |
| CheckEndpoint.MissingKeyIsBadRequest | update_checker_app/controllers.py:29-33 | with the agent accepted, no body or a body missing a required key gives 400 |
| CheckEndpoint.OutcomeDependsOnlyOnCheckedFields | update_checker_app/controllers.py:32-49 | once the agent and the keys pass, two requests with the same cleaned name, the same raw version, platform and Python version, and the same address get the same outcome, whatever else their bodies and headers hold |
| CheckEndpoint.DottedPackageNameLikeLastSegment | update_checker_app/controllers.py:35 | setting `package_name` to `prefix.name` gives the same outcome as setting it to `name`, for every request |
| CheckEndpoint.UnprocessableIffUnknownPackage | update_checker_app/controllers.py:35-37 | 422 exactly when agent and keys pass and the cleaned name is not allow-listed; blank values do not affect it |
| CheckEndpoint.EmptyPackageNameIsUnprocessable | update_checker_app/controllers.py:35-37 | an empty package name gets 422, not 400, when `normalize` maps "" to "" |
| CheckEndpoint.EmptyNameNotAllowed | update_checker_app/controllers.py:11-13 | the last segment of "" is "", and "" is not an allow-listed name |
| CheckEndpoint.BlankFieldIsBadRequest | update_checker_app/controllers.py:39-44 | after the earlier guards pass, 400 exactly when the version is all whitespace or the normalized platform or Python version is empty |
| CheckEndpoint.AdmitOkIffClean | update_checker_app/controllers.py:36-49 | the body guards succeed exactly when the name is allowed and no cleaned value is blank; the record is then the cleaned values |
| CheckEndpoint.RecordedExactlyWhenAllGuardsPass | update_checker_app/controllers.py:26-49 | the check is recorded exactly when every guard passes; the record is the cleaned name, stripped version, normalized platform and Python version, and the remote address; the pre-release flag is `not standard_release(stripped version)` |
| CheckEndpoint.TokenAccepted | update_checker_app_tests.py:13-18 | the library's own User-Agent `python-requests` passes the agent guard |
| CheckEndpoint.ClientBodyHasRequiredKeys | update_checker_app_tests.py:173-179 | the body a client sends holds the four required keys, each with the value it was built from |
| CheckEndpoint.ClientRequestAdmitted | update_checker_app/controllers.py:26-35 | a client request passes the agent and key guards, and its outcome is decided by the body guards on the cleaned name and the raw values |
| CheckEndpoint.AdmitCleanValues | update_checker_app/controllers.py:36-49 | for an allow-listed name and values that are already clean, the body guards record exactly those values, with the pre-release flag `not standard_release(version)` |
| CheckEndpoint.ClientCheckAccepted | update_checker_app/controllers.py:46-49 | a well-formed client check for an allow-listed package is recorded as sent and answered from the channel `standard_release` picks |
| CheckEndpoint.SubmodulePathIsPraw | update_checker_app_tests.py:32 | the last segment of `resources.lib.modules.praw` is `praw` |
| CheckEndpoint.SubmodulePathScenario | update_checker_app_tests.py:31-39 | `praw` 3.6.0 sent as `resources.lib.modules.praw` is recorded as `praw` and answered from the stable channel |
| CheckEndpoint.PrereleaseScenario | update_checker_app_tests.py:41-48 | `praw` 3.0b1 is recorded and answered from the pre-release channel |
| Text.ContainsIffOccurs | update_checker_app/controllers.py:27 | Python's `needle in hay` holds exactly when `needle` occurs at some index of `hay` |
| Text.Contains | update_checker_app/controllers.py:27 | Python's `needle in hay`: `needle` is a prefix of `hay` or of one of its suffixes (characterised by `ContainsIffOccurs`) |
| Text.AfterLastDot | update_checker_app/controllers.py:35 | `rsplit('.', 1)[-1]` is a dot-free suffix of the input that is the whole input or follows a '.' |
| Text.AfterLastDotUnique | update_checker_app/controllers.py:35 | those properties determine `rsplit('.', 1)[-1]`: it is the longest dot-free suffix |
| Text.DottedPathReducesToLastSegment | update_checker_app/controllers.py:35 | `rsplit('.', 1)[-1]` of `p.x` equals that of `x` |
| Text.AfterLastDotIdempotent | update_checker_app/controllers.py:35 | taking the last segment twice changes nothing |
| Text.SegmentStart | update_checker_app/controllers.py:35 | the start of the dotted segment that ends at `j`, which is never after `j` |
| Text.SegmentStartSpec | update_checker_app/controllers.py:35 | no '.' lies between the segment start and `j`, and a '.' lies just before a non-zero start |
| Text.SegmentStartUnique | update_checker_app/controllers.py:35 | those two properties fix the segment start: any index that has them is it |
| Text.IsSpace | update_checker_app/controllers.py:39 | the whitespace set `strip()` removes: the characters for which Python 2.7's `unicode.isspace()` holds |
| Text.SpacesFrom | update_checker_app/controllers.py:39 | the end of the leading run of whitespace: all whitespace before it, none at it |
| Text.SpacesBefore | update_checker_app/controllers.py:39 | the start of the trailing run of whitespace, not below a bound |
| Text.Strip | update_checker_app/controllers.py:39 | `strip()` is a substring of the input with only whitespace around it and no whitespace at either end; empty exactly when the input is all whitespace |
| Text.StripLeavesTrimmed | update_checker_app/controllers.py:39 | a string with no whitespace at either end is its own strip |
| Text.StripIdempotent | update_checker_app/controllers.py:39 | stripping twice equals stripping once |
| UsageReport.Lookup | update_checker_app/controllers.py:17-18 | the join `installation.package_id = package.id` finds a package exactly when some package has that id |
| UsageReport.InWindow | update_checker_app/controllers.py:16-17 | the time filter `installation.created_at > now() - 1 day`, with the bound excluded |
| UsageReport.Window | update_checker_app/controllers.py:16-18 | the filter keeps exactly the rows created after `now - 1 day` that join to a package |
| UsageReport.WindowConcat | update_checker_app/controllers.py:16-18 | the filter judges rows one by one: filtering `a + b` is filtering `a` then `b` |
| UsageReport.StaleRowIgnored | update_checker_app/controllers.py:16-18 | a row created at or before `now - 1 day` changes nothing in the report, wherever it stands |
| UsageReport.ReportReadsWindow | update_checker_app/controllers.py:59-66 | the report depends on the installation rows only through the filtered rows |
| UsageReport.OfPackage | update_checker_app/controllers.py:65 | a group holds exactly the filtered rows with its package id |
| UsageReport.OfPackageCounts | update_checker_app/controllers.py:62-65 | a group holds each row of its package id as many times as the filtered rows do, and no other row |
| UsageReport.GroupIds | update_checker_app/controllers.py:65 | the group keys are each package id of a filtered row, once |
| UsageReport.GroupIdsOfOne | update_checker_app/controllers.py:65 | when all filtered rows carry one package id, there is exactly one group key, that id |
| UsageReport.SumCounts | update_checker_app/controllers.py:63 | `sum(installation.count)` over a group (used in `EntryDescribesGroup`) |
| UsageReport.Entry | update_checker_app/controllers.py:59-63 | the selected columns of one group: the package's id, name and version, the row count and the summed count (characterised by `EntryDescribesGroup`) |
| UsageReport.Entries | update_checker_app/controllers.py:59-65 | one entry per group key, in key order |
| UsageReport.InsertByUnique | update_checker_app/controllers.py:66 | inserting into a list ordered by `unique` descending keeps it ordered, adds exactly that entry, and keeps ids distinct |
| UsageReport.InsertedAmong | update_checker_app/controllers.py:66 | the insertion result holds exactly the old entries and the new one |
| UsageReport.HeadAboveRest | update_checker_app/controllers.py:66 | the first entry after an insertion has a `unique` no smaller than every other entry |
| UsageReport.HeadIdNotInRest | update_checker_app/controllers.py:66 | the first entry after an insertion shares its id with no other entry |
| UsageReport.SortByUnique | update_checker_app/controllers.py:66 | `ORDER BY count(installation.id) DESC`: the result is a permutation, ordered by `unique` descending, with ids still distinct |
| UsageReport.SortKeepsMembers | update_checker_app/controllers.py:66 | ordering neither adds nor drops an entry |
| UsageReport.EntryDescribesGroup | update_checker_app/controllers.py:59-65 | a group's entry names the package with that id, counts the group's rows (at least one) and sums their counts |
| UsageReport.EntriesDescribe | update_checker_app/controllers.py:59-65 | every entry describes its own group |
| UsageReport.SortedEntries | update_checker_app/controllers.py:59-66 | the ordered entries describe their groups, cover every filtered row, have distinct ids and never increasing `unique` |
| UsageReport.Report | update_checker_app/controllers.py:59-66 | the query: filter, group, one entry per group, ordered by `unique` descending (`ReportIsReport` proves it is an answer) |
| UsageReport.IsReport | update_checker_app/controllers.py:59-66 | the reference for an answer: every entry describes its group, every filtered row has an entry, ids are distinct, `unique` never increases |
| UsageReport.ReportIsReport | update_checker_app/controllers.py:59-66 | the computed report is an answer of the query: one entry per package id with filtered rows and no other, with the package's name and version, `unique` = number of rows, `count` = sum of counts, `unique` never increasing |
| UsageReport.DescribedOnce | update_checker_app/controllers.py:59-65 | with package ids unique, a group has one possible entry |
| UsageReport.EntryInBoth | update_checker_app/controllers.py:59-66 | an entry of one answer of the query is an entry of every other |
| UsageReport.ReportsAgreeUpToTies | update_checker_app/controllers.py:59-66 | any two answers of the query hold the same entries; only the order of equal `unique` can differ |
| UsageReport.EmptyReportIffNoRows | update_checker_app/controllers.py:59-69 | the report is `[]` exactly when no row is in the window and joined to a package; no entry with zero counts |
| UsageReport.LookupFindsThePackage | update_checker_app/controllers.py:59-61 | with unique ids, the join finds the package row itself, so `max(package.*)` over a group is that package's columns |
| UsageReport.OfPackageAll | update_checker_app/controllers.py:65 | when every filtered row carries one package id, that group holds all of them |
| UsageReport.SinglePackageReport | update_checker_app_tests.py:147-160 | when all filtered rows belong to one package, the report is that package's single entry, with `unique` = number of rows and `count` = sum of counts |
| UsageReport.SeparateEntriesPerPackageId | update_checker_app_tests.py:89-102 | rows of two different package ids (one name at two versions, say) get two different entries |
| PackagesEndpoint.Columns | update_checker_app/controllers.py:59-63 | a query row has one column per title |
| PackagesEndpoint.Zip | update_checker_app/controllers.py:70 | `zip` pairs equal indexes, as many as the shorter side has |
| PackagesEndpoint.Dict | update_checker_app/controllers.py:70 | `dict(pairs)` has exactly the keys of the pairs |
| PackagesEndpoint.DictOfDistinctKeys | update_checker_app/controllers.py:70 | with no key repeated, `dict(pairs)` maps each key to its own value |
| PackagesEndpoint.ToObject | update_checker_app/controllers.py:70 | `dict(zip(INSTALLATION_QUERY_TITLES, row))` for one row (characterised by `ObjectHasTheFiveKeys`) |
| PackagesEndpoint.ObjectPairs | update_checker_app/controllers.py:20 | the pairs `zip(INSTALLATION_QUERY_TITLES, row)` makes, written out |
| PackagesEndpoint.ObjectValues | update_checker_app/controllers.py:70 | each title maps to the column at its index |
| PackagesEndpoint.ObjectKeys | update_checker_app/controllers.py:70 | a report object has no key but `id, package, version, unique, count` |
| PackagesEndpoint.ObjectKeySet | update_checker_app/controllers.py:20 | the keys of a report object are exactly `id, package, version, unique, count` |
| PackagesEndpoint.ObjectFields | update_checker_app/controllers.py:20 | each of the five keys is present and holds its column of the row |
| PackagesEndpoint.ObjectHasTheFiveKeys | update_checker_app/controllers.py:20 | a report object has exactly the keys `id, package, version, unique, count`, each holding its column |
| PackagesEndpoint.BuildResults | update_checker_app/controllers.py:68-70 | the results list has one object per query row, in order, each with the five keys and the row's values |
| PackagesEndpoint.ExtendedOriginRefused | update_checker_app_tests.py:112-118 | an allowed origin with anything appended is not allowed |
| PackagesEndpoint.Response.constructor | update_checker_app/controllers.py:71 | `jsonify(results)` holds the list as body, served as JSON |
| PackagesEndpoint.Response.AllowOrigin | update_checker_app/controllers.py:72-74 | the header is set to the origin exactly when the origin is allowed; nothing else changes |
| PackagesEndpoint.Packages | update_checker_app/controllers.py:57-75 | the body is the report as objects, one per entry in order; `Access-Control-Allow-Origin` is present exactly when `Origin` (or "") is allowed, and then equals it |

## Left out

- `home()` (`GET /`, controllers.py lines 52-54) returns an empty 204. It is not modelled because it has no logic.
- `normalize`, `standard_release`, `record_check` and `get_current_version` are not modelled. They come from `update_checker_app/helpers.py`, which is not part of this model. The first two are parameters. `record_check` is its argument tuple in `Outcome.Ok`. `get_current_version` is the pre-release flag, and its answer (version, upload time) is not modelled.
- CheckEndpoint.Check: a JSON body that is not an object, such as a list or a string, is not modelled; the body is an optional map. Body values are strings, so a request with a value that is not a string is not represented, even under a key the handler never reads. Python would treat such requests in different ways:
  - a non-string `package_name` fails at line 35;
  - a non-string `package_version` fails at line 39, but only once the name is allow-listed, because line 37 answers 422 first;
  - a non-string `platform` or `python_version` goes to `normalize`, which is not part of this model;
  - a value under any other key is ignored.
- CheckEndpoint.Check: the JSON body of the success response and the error pages' text are not modelled; the outcome stands for them.
- CheckEndpoint.StatusCode: `Ok` and its 200 assume that `record_check` and `get_current_version` both return. Either one raising (a database error, or a version lookup that fails) makes Flask answer 500. When it is `get_current_version` that raises, the check has already been recorded (lines 46-49). The model has no outcome for either failure, because the helpers' bodies are not part of this model.
- The ORM, the database session and `jsonify`'s serialisation are not modelled. Concurrency between requests is not modelled either.
- UsageReport.Report: the database's `now()` is a parameter, and timestamps are whole seconds, with one day = 86400 seconds. A time zone and sub-second timestamps are not modelled.
- UsageReport.Report: package ids are assumed unique, as the primary key makes them (`UniqueIds` is a requires).
- UsageReport.Report: a `NULL` count, and `sum()` of NULLs, are not modelled; counts are integers.
- UsageReport.Report computes one order among groups with equal `unique`. The query leaves that order to the database; `IsReport` describes every order it may give.
- PackagesEndpoint.Packages: the `Origin` header is given as an optional string. The other request headers are not modelled.
