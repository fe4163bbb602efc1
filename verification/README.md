# releases — a Dafny model

`releases` watches a list of JavaScript projects hosted on GitHub. A Python
script (`releases.py`) reads a CSV list of projects and fetches each one's
`package.json` from the raw GitHub host. When the published version differs
from the last one it recorded, it records the new one in a file cache:
- a version marker per package;
- a per-package history;
- a JSON snapshot per version;
- one global change log, `cache/releases`.

It then cuts the change log to its last 100 lines and publishes a feed of the
retained snapshots, newest first. A static page (`js/app.js`) reads the same
change log and lists a table row per snapshot path, newest first. On the way
it trims each line with the line's index as the characters to trim, a slip
recorded under "## Findings". It filters rows
with a case-insensitive search box and shows a package's details after
normalising its manifest.

This project models that core as pure functions over immutable values and
proves what the code promises:

| file | module | models |
|---|---|---|
| `base.dfy` | `Base` | `Option`, last-n, reversal, prefix-while-present helpers |
| `text.dfy` | `Text` | `strip`/`trim`, ASCII lower-casing, `indexOf`, `split`/`join`, `strLeft` |
| `line_file.dfy` | `LineFile` | line-oriented text files: reading lines, writing one line per entry |
| `repo_client.dfy` | `RepoClient` | `make_url` |
| `cache.dfy` | `Cache` | the cache tree: `read_latest_version`, `write_latest_version` |
| `release_log.dfy` | `ReleaseLog` | `truncate_release_file`, with the bounded deque and the rewrite loop as methods |
| `feed.dfy` | `Feed` | `package_to_feed_entry`, `generate_feeds` (entries and their order) |
| `checker.dfy` | `Checker` | the per-row logic of `check_updates_from_file`, the whole pass, and the run with feed generation |
| `app.dfy` | `App` | `normalizePackage`, `inputToSearch`'s dispatch, `onSearch`, the `containsi` selector, `onReleasesLoaded` |

The file system is a value `CacheState`:
- version markers and histories keyed by the package folder path;
- the change log as an optional text, absent when the file does not exist;
- snapshots keyed by their path.

The HTTP GET is a function argument `remote: string -> Fetch` that maps a URL
to a status and a manifest. A manifest is a map from keys to string values.

## Model

| member | source | states |
|---|---|---|
| `RepoClient.MakeUrl` | releases.py:71-77 | no URL exactly when the host kind is not `github`; otherwise the URL starts with the raw host prefix |
| `RepoClient.UrlText` | releases.py:75 | for every org, name and branch, the URL is exactly `https://raw.github.com/{org}/{name}/{branch}/package.json`, written as the join of its pieces with `/` |
| `RepoClient.UrlPieces` | releases.py:75 | for slash-free fields, the URL's `/`-pieces are the scheme, an empty piece, the raw host, then org, name and branch verbatim, then `package.json` |
| `RepoClient.UrlDeterminesProject` | releases.py:75 | two slash-free projects with the same URL have the same org, name and branch |
| `Cache.ReadLatestVersion` | releases.py:79-91 | `None` exactly when the package's marker file does not exist; otherwise the marker's content with surrounding whitespace stripped |
| `Cache.WriteLatestVersion` | releases.py:93-116 | returns the version; sets the marker to it; appends it and a newline to the history; appends the snapshot path and a newline to the change log, creating the log if absent; stores the manifest at the snapshot path; every other marker, history and snapshot is unchanged |
| `Cache.ReadAfterWrite` | releases.py:79-116 | reading after a write gives back the written version stripped, and the version itself when it has no surrounding whitespace |
| `Cache.WriteLeavesOthers` | releases.py:95-106 | a write leaves the marker of every other folder as it was |
| `Cache.FolderInjective` | releases.py:95-96 | slash-free host, org and name determine distinct folders |
| `Cache.SnapshotPathPieces` | releases.py:99 | a snapshot path splits into `cache`, host, org, name and `{version}.json` |
| `Cache.WriteAddsOneLine` | releases.py:105-112 | one write adds exactly the version as one line of the history and the snapshot path as one line of the change log, keeping both newline-terminated |
| `Cache.WriteAllHistory` | releases.py:111-112 | writing versions one after another appends exactly those versions, in order, to the history |
| `Cache.WriteAllLog` | releases.py:108-109 | writing versions one after another appends their snapshot paths, in order, to the change log |
| `Cache.WriteAllMarker` | releases.py:105-106 | after several writes the marker reads as the last version written, stripped |
| `Text.StripIgnoresNewline` | releases.py:40 | stripping a line read with its line feed gives the same text as stripping it without |
| `ReleaseLog.EntriesOfRawLines` | releases.py:37-40 | the entries truncation collects are exactly the lines `for line in handle` yields, line feed included, each stripped, one for one |
| `ReleaseLog.BoundedDeque` | releases.py:34-41 | a deque with `maxlen=count` fed the lines in order ends holding the last `min(n, count)` of them |
| `ReleaseLog.WriteLines` | releases.py:45-52 | the rewrite loop returns the kept lines in order and writes each followed by a line feed |
| `ReleaseLog.TruncateReleaseFile` | releases.py:31-52 | no result exactly when the log is absent; otherwise the returned lines are the last `min(n, count)` stripped lines of the log, and the new log text is those lines, one per line |
| `ReleaseLog.TruncationKeepsSuffix` | releases.py:31-52 | the kept lines are a suffix of the log's stripped lines, at most `count` of them, and the rewritten log reads back as exactly those lines |
| `ReleaseLog.TruncationIdempotent` | releases.py:31-52 | truncating a truncated log again returns the same lines and leaves the text unchanged |
| `Feed.PackageToFeedEntry` | releases.py:17-29 | title is name, one space, version, each empty when missing; link is `homepage` whenever that key exists, even if empty, else `url`, else empty; description is the `description` value whenever that key exists, else empty |
| `Feed.GuidOfSnapshot` | releases.py:27 | the guid of a snapshot path drops `cache` and the host kind: `{org}/{name}/{version}.json` |
| `Feed.LoadEntries` | releases.py:56-57 | loading succeeds exactly when every path names a stored snapshot; entry `i` describes path `i` |
| `Feed.GenerateFeeds` | releases.py:54-59 | fails exactly when the log is absent or a retained line names no snapshot; on success the cache differs only in the log, rewritten to the retained lines, and there is one entry per retained line; the cache left on failure is stated by `Feed.FeedsCache` |
| `Feed.FeedsCache` | releases.py:31-57 | the cache feed generation leaves, even when it then raises: the successful run's cache when there is one; markers, histories and snapshots untouched; a log present exactly when it was before, then reading back as its last `min(n, count)` stripped lines |
| `Feed.FeedOrder` | releases.py:56-59 | feed entry `i` describes retained line `n-1-i`: the newest change comes first |
| `Feed.FeedInOrder` | releases.py:55-59 | the feed has one entry per retained line, and entry `i` describes the `i`-th retained line counted from the end, whose snapshot is stored |
| `Feed.FeedListsLogBackwards` | releases.py:54-59 | a log of at most `count` clean lines p1..pn yields the feed pn..p1 |
| `Feed.FeedKeepsSnapshots` | releases.py:54-59 | feed generation never touches markers, histories or snapshots |
| `Feed.GenerateFeedsIdempotent` | releases.py:54-59 | generating the feed twice gives the same feed and leaves the cache as the first run left it |
| `Checker.ParseRow` | releases.py:129-130 | a row is a project exactly when it has four fields, each then stripped |
| `Checker.CheckRow` | releases.py:127-162 | invalid row iff not four fields; unsupported iff the stripped host is not `github`; missing manifest iff the GET is not 200, naming the stripped project name; unchanged iff the offered version equals the recorded one; updated iff it differs, including when nothing was recorded, writing exactly that version and manifest; every other outcome, a manifest without `version` among them, leaves the cache unchanged |
| `Checker.PaddedVersionAlwaysRewrites` | releases.py:139-156 | a published version with surrounding whitespace is written again on every check, since the recorded version is read back stripped |
| `Checker.RowTwiceWritesOnce` | releases.py:139-156 | with a stripped published version, checking the same row again writes nothing |
| `Checker.CheckUpdates` | releases.py:122-160 | the projects reported without a `package.json` are the stripped names of the four-field `github` rows whose GET is not 200, in row order |
| `Checker.PassKeepsMarker` | releases.py:127-160 | a folder whose marker is `v` keeps `v` through a pass in which every row for that folder offers `v` |
| `Checker.FirstPassSettles` | releases.py:127-160 | when published versions are stripped and rows for the same folder agree, after one pass every offered version is the recorded one |
| `Checker.SecondPassChangesNothing` | releases.py:118-162 | under the same conditions, a second pass changes no file and reports the same missing projects |
| `Checker.CheckUpdatesFromFile` | releases.py:118-169 | the run completes exactly when feed generation on the pass's cache succeeds, and only a completed run reports the pass's missing projects; an aborted run reports nothing; a completed run's feed has one entry per change-log line kept after the pass, entry `i` describing the `i`-th kept line from the end |
| `Checker.AbortAfterTruncation` | releases.py:54-57 | a run that aborts with a change log present has already cut the log to its last `min(n, 100)` stripped lines, and one of those lines names no stored snapshot |
| `Checker.RunTwiceSameResult` | releases.py:118-169 | under the same conditions, running again on the resulting cache gives the same cache, feed and report |
| `Checker.OneRowUpdates` | releases.py:143-156 | a single row offering an unrecorded version makes a pass that writes it and reports nothing |
| `Checker.WriteExtendsLog` | releases.py:108-109 | a write appends its snapshot path as a new last line of a clean change log |
| `Checker.LogFeedsNewestFirst` | releases.py:54-59 | the feed of a non-empty clean log has `min(n, 100)` entries and starts with the snapshot named by the log's last line |
| `Checker.FreshPackageRun` | releases.py:118-164 | the first check of an unseen package that answers 200 with a version: nothing reported missing, marker set, manifest stored, log gains the snapshot path and is cut to 100 lines, and the feed starts with the new version with guid `{org}/{name}/{version}.json` |
| `Checker.NoLogFileRun` | releases.py:108-109 | without a change-log file, the first check of an unseen package gives the same run as with an empty one, since the write opens the log in append mode and so creates it |
| `Checker.WidgetFirstRun` | releases.py:118-164 | on an empty cache with no change-log file, one row for `acme/widget` publishing 1.0.0 gives exactly one feed entry: `widget 1.0.0`, `http://x`, `d`, `acme/widget/1.0.0.json` |
| `App.FirstTruthy` | js/app.js:56-63 | an `a || b || ""` chain is empty iff no key holds a non-empty value, else it is the value of the first key that does |
| `App.NormalizePackage` | js/app.js:53-66 | name prefers `name` and title prefers `title`, each falling back on the other by truthiness; both are empty iff neither field is set, and they coincide when at most one is; homepage falls back from `homepage` to `url` to empty; description and version default to empty; keywords default to the empty list; bugs takes `bugs.web`, then `bugs.url`, then empty, and is empty without a `bugs` object |
| `App.HomepageVersusFeedLink` | js/app.js:60 | the page's homepage equals the feed's link (releases.py:25) except when `homepage` is present but empty and `url` is set: then the page shows `url` and the feed an empty link |
| `App.OnSearchEvent` | js/app.js:101-116 | an empty query goes to the clear handler; a non-empty one goes to search on Enter and to live search otherwise; a missing handler means no call; the query is passed unchanged |
| `App.FilterBoxSettles` | js/app.js:101-130 | on the filter box, which wires `onSearch` as all three callbacks, any event leaves exactly the rows `onSearch` selects for the typed query, whatever the key and whatever was shown before; a second event on the same query, such as Enter after a key-up, changes nothing; an empty box shows every row |
| `App.FilterBoxAlwaysSearches` | js/app.js:166 | the filter box wires all three handlers, so every event calls one with the typed query |
| `App.Containsi` | js/app.js:153-157 | a row matches iff its lower-cased text contains the lower-cased query somewhere |
| `App.ContainsiEmpty` | js/app.js:156 | the empty query matches every text |
| `App.ContainsiOfOccurrence` | js/app.js:155-156 | an exact occurrence matches regardless of the case of either side |
| `App.OnSearch` | js/app.js:123-130 | a query that is blank once trimmed shows every row; otherwise a row is shown iff it matches the untrimmed query case-insensitively |
| `App.SearchShowsMatches` | js/app.js:127-128 | a row whose text contains the query is shown |
| `App.NarrowingHidesMore` | js/app.js:123-128 | typing more after a non-blank query never shows a row the shorter query hid |
| `App.TrimAtSlice` | js/app.js:136 | item 0 gets the whitespace trim; item `k` of a later position keeps a contiguous piece of itself, having lost only characters of the numeral of `k` at either end, and neither end of what remains is such a character |
| `App.Items` | js/app.js:133-139 | the items walked are never empty and number at most the file's `\n`-separated pieces; which lines are walked, and in what order, is stated by `App.ItemsWalked` |
| `App.TrimAtDigitFree` | js/app.js:136 | past item 0, a line with no digit at either end is kept whole by the indexed trim, whitespace included |
| `App.IndexedTrimKeepsBlank` | js/app.js:135-145 | for the text `x\n \n` the page walks ` ` and then `x`, and ` ` yields no row, so the loop stops before `x`; a whitespace trim of every line would walk `x` alone |
| `App.IndexedTrimDropsDigits` | js/app.js:135-139 | for the text `1\n` the page walks no item, where a whitespace trim of every line would walk `1` |
| `App.CleanReverse` | js/app.js:135-139 | the whitespace trim of every line, dropping blank lines, commutes with reversal |
| `App.CleanItemsNewestFirst` | js/app.js:133-139 | with the whitespace trim applied to every line, the items are the file's non-blank lines, trimmed, last line first |
| `App.SnapshotPathPlain` | releases.py:99 | a snapshot path has neither whitespace nor a digit at either end, as it starts with `cache` and ends with `.json` |
| `App.ItemsNewestFirst` | js/app.js:133-139 | when no line of the file has whitespace or a digit at either end, the items walked are the non-empty lines, last line first, and the same as under the whitespace trim |
| `App.ParseReleaseLine` | js/app.js:141-145 | an item yields a row iff it has at least five `/`-pieces; the row keeps the item as its path and its fields hold no `/` |
| `App.AppendRows` | js/app.js:140-148 | rows are appended one per item, in order, up to the first item missing its fifth piece, where the thrown error ends the loop |
| `App.StrLeftJson` | js/app.js:145 | `strLeft(v + ".json", ".json")` gives back `v` whenever `v` does not contain `.json` |
| `App.NonEmpty` | js/app.js:137-139 | the filter keeps exactly the non-empty items: every kept item is non-empty and among the inputs, and every non-empty input is kept |
| `App.NonEmptyAppend` | js/app.js:137-139 | filtering a concatenation filters each part and keeps them in order |
| `App.NonEmptyPositions` | js/app.js:137-139 | kept item `i` is the input at the `i`-th non-empty position, so the filter keeps its inputs' order |
| `App.ItemsWalked` | js/app.js:133-139 | for any file, walked item `i` is the line at position `p` from the end trimmed as the item at position `p`, for an increasing list of positions, and every line whose trim is non-empty is walked |
| `App.OnReleasesLoaded` | js/app.js:132-149 | the rows appended are the parses of the walked items, in order, up to the first item that has no fifth `/`-piece, where the loop ends |
| `App.PageRows` | js/app.js:132-149 | a change log written one line per entry, each line with five `/`-pieces and no whitespace or digit at either end, gives one row per line, the last line first, each row parsed from its line and keeping it as its path |
| `App.ParseSnapshotPath` | js/app.js:141-145 | a change-log line written by the Python side parses back into its host, org, name and version, for a version not containing `.json` |
| `App.ItemsOfRendered` | js/app.js:132-139 | the items of a log written one line per entry, each line non-empty with no whitespace or digit at either end, are its lines in reverse, under either trim |
| `App.PageMatchesFeed` | js/app.js:132-148 | after feed generation on a log whose retained lines are non-empty with no digit at either end, as snapshot paths are, the page has as many items as the feed has entries, the same items under either trim, and item `i` is the snapshot path that feed entry `i` describes |

## Left out

- HTTP, JSON and CSV parsing are left out. The GET is the `remote` argument and a manifest is a map of strings. CSV rows arrive as sequences of fields.
- Non-string JSON values are left out: a `version` that is `null`, a number or an object, and `bugs` that is not an object. JSON `null` for `version` behaves as a missing key in the code, and the model has no such value.
- Partial writes, failures of `os.makedirs` or `open`, and concurrent runs are left out. Each write of `write_latest_version` is modelled as completing.
- Rendering the RSS and Atom files with `feedformatter` is left out, together with the feed's fixed title, link, author and description. The model stops at the list of entries.
- `print` output, the DOM, jQuery, Mustache templates, `alert` and the detail view's scrolling are left out. `formatRelease` is reduced to the row's fields and the text they contribute to the `containsi` match.
- `App.OnSearch`: the query is pasted into a jQuery selector unquoted. A query holding `)` or other selector syntax changes or breaks the selector, and the model does not represent that.
- `Text.Lower`: lower-cases ASCII letters only; JavaScript's `toLowerCase` also folds non-ASCII letters.
- `Text.Strip`: removes the six ASCII whitespace characters. Python's `strip` also removes `\x1c`-`\x1f` and Unicode spaces, and JavaScript's `trim` removes Unicode spaces.
- Python's universal-newline translation of `\r\n` and `\r` is left out. Lines are split on `\n` only.
- `Str.lines` and `Str.words` from underscore.string 2.0.0 are modelled as a plain split on `\n` and on `/`. The delimiter is not trimmed at the ends and empty pieces are not dropped.
- On the page, a missing fifth piece makes `strLeft` throw, and this is modelled as stopping the loop at that item.
- A negative `count` is left out. Counts are natural numbers, as every caller passes 100.
- The guid drops the first two path components, `cache` and the host kind, so it is `{org}/{name}/{version}.json` rather than the snapshot path relative to the cache directory.
- `App.TrimAt`: follows underscore.string builds that read a numeric `characters` argument as its decimal numeral. A build whose regular-expression escaping calls `replace` on the argument throws at item 1 instead, which ends the chain before any row is appended.
- `App.ItemsNewestFirst`: stated only for files whose every `\n`-piece has no whitespace and no digit at either end (`Plain`). Every line the Python side writes is such a line (`App.SnapshotPathPlain`); for other lines the indexed trim differs, as `App.IndexedTrimKeepsBlank` and `App.IndexedTrimDropsDigits` show. `App.ItemsWalked` states the walk for every file.
- `App.ItemsOfRendered`: stated only for logs whose lines are non-empty and have no whitespace and no digit at either end, which snapshot paths are.
- `App.PageRows`: stated only for logs whose lines are non-empty, have no whitespace and no digit at either end, and have five `/`-pieces, which snapshot paths are.
- `App.PageMatchesFeed`: stated only for retained lines that are non-empty with no digit at either end; the lines a log keeps are already stripped, so whitespace needs no separate requirement. Snapshot paths meet this.
- A connection error or time-out raised by `requests.get` (releases.py:141) is left out. It ends the program before `generate_feeds`, keeping the writes of earlier rows; the model's `remote` always answers.
- The body of a 200 response is left out beyond a map of strings. `response.json` (releases.py:145) is the parsed body only under `requests` before 1.0, and is `None` for a body that is not JSON; a JSON array has no `.get`. In each case `package.get` (releases.py:147) raises and the run ends, which the model does not represent.
- Paths are built by string formatting (releases.py:95-99), so a version from the remote manifest holding `/` or `..`, such as `../widget/1.0`, names the same file on disk as `1.0`. `Cache` keys snapshots by the path string and keeps two snapshots where the file system keeps one.

## Findings

| source | as written | input that shows it | evidently intended | confidence | as-written member | corrected member |
|---|---|---|---|---|---|---|
| js/app.js:136 | `.map(Str.trim)` passes each item's index as `trim`'s characters argument, so only item 0 gets the whitespace trim and item `k` has the digits of `k` trimmed from its ends | the text `x\n \n` walks ` ` before `x` and the loop stops at ` `; the text `1\n` walks nothing | a whitespace trim of every line, e.g. `.map(function (l) { return Str.trim(l); })` | not executed; medium, as builds that cannot take a number as characters throw instead | `App.Items` with `App.IndexedTrimKeepsBlank` and `App.IndexedTrimDropsDigits` | `App.CleanItems` with `App.CleanItemsNewestFirst`, used by `App.ItemsOfRendered` and `App.PageMatchesFeed` |
