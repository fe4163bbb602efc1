/** The update checker (`check_updates_from_file`): for each watch-list row,
    in file order, decide whether to fetch, and whether to record a new
    version; then regenerate the feed. The HTTP GET is the input `remote`,
    the response to each URL. */
module Checker {
  import opened Base
  import opened Text
  import opened Cache
  import opened RepoClient
  import opened LineFile
  import opened ReleaseLog
  import opened Feed

  /** The response to a manifest GET: status code and parsed body. */
  datatype Fetch = Fetch(status: int, manifest: Manifest)

  /** What happened to one row. */
  datatype Outcome =
    | InvalidRow                    // not exactly four fields
    | UnsupportedHost               // `make_url` gave no URL
    | ManifestMissing(name: string) // status other than 200
    | NoVersionField                // manifest without "version"
    | Unchanged                     // same version as the marker
    | Updated(version: string)      // new version written

  datatype Step = Step(cache: CacheState, outcome: Outcome)

  /** The host kind is one slash-free, newline-free word. */
  lemma GitHubText()
    ensures '/' !in GitHub && '\n' !in GitHub && IsStripped(GitHub)
  {
  }

  lemma NewlineFree(a: string, b: string, c: string, d: string)
    requires '\n' !in a && '\n' !in b + c && '\n' !in d
    ensures '\n' !in a + b + c + d
  {
    assert a + b + c + d == a + (b + c) + d;
  }

  /** A row's fields with surrounding whitespace removed. */
  datatype Project = Project(repo: string, org: string, name: string, branch: string)

  /** The four stripped fields of a row that has exactly four. */
  function ParseRow(row: seq<string>): (p: Option<Project>)
    ensures p.Some? <==> |row| == 4
    ensures p.Some? ==>
      && p.value.repo == Strip(row[0]) && p.value.org == Strip(row[1])
      && p.value.name == Strip(row[2]) && p.value.branch == Strip(row[3])
  {
    if |row| == 4 then Some(Project(Strip(row[0]), Strip(row[1]), Strip(row[2]), Strip(row[3])))
    else None
  }

  /** The version a row's fetch offers, whatever the cache holds: present only
      for a four-field github row whose fetch answered 200 with a "version". */
  datatype Offer = Offer(project: Project, version: string, manifest: Manifest)

  function Offered(row: seq<string>, remote: string -> Fetch): Option<Offer> {
    match ParseRow(row)
    case None => None
    case Some(p) =>
      match MakeUrl(p.repo, p.org, p.name, p.branch)
      case None => None
      case Some(url) =>
        var response := remote(url);
        if response.status == 200 && "version" in response.manifest
        then Some(Offer(p, response.manifest["version"], response.manifest))
        else None
  }

  function OfferFolder(o: Offer): string {
    PackageFolder(o.project.repo, o.project.org, o.project.name)
  }

  /** A four-field github row whose manifest GET did not answer 200. */
  predicate FetchFails(row: seq<string>, remote: string -> Fetch) {
    && |row| == 4 && Strip(row[0]) == GitHub
    && remote(MakeUrl(GitHub, Strip(row[1]), Strip(row[2]), Strip(row[3])).value).status != 200
  }

  /** The offered version is what the cache already records for the package. */
  predicate Known(c: CacheState, o: Offer) {
    ReadLatestVersion(c, o.project.repo, o.project.org, o.project.name) == Some(o.version)
  }

  /** One iteration of the loop over the watch-list. */
  function CheckRow(c: CacheState, row: seq<string>, remote: string -> Fetch): (s: Step)
    ensures s.outcome.InvalidRow? <==> |row| != 4
    ensures s.outcome.UnsupportedHost? <==> |row| == 4 && Strip(row[0]) != GitHub
    ensures s.outcome.ManifestMissing? <==> FetchFails(row, remote)
    ensures s.outcome.ManifestMissing? ==> s.outcome.name == Strip(row[2])
    ensures s.outcome.Unchanged? <==> (Offered(row, remote).Some? && Known(c, Offered(row, remote).value))
    ensures s.outcome.Updated? <==> (Offered(row, remote).Some? && !Known(c, Offered(row, remote).value))
    ensures s.outcome.Updated? ==>
      var o := Offered(row, remote).value;
      && s.outcome.version == o.version
      && s.cache == WriteLatestVersion(c, o.project.repo, o.project.org, o.project.name, o.version, o.manifest).0
    ensures !s.outcome.Updated? ==> s.cache == c
  {
    match ParseRow(row)
    case None => Step(c, InvalidRow)
    case Some(p) =>
      match MakeUrl(p.repo, p.org, p.name, p.branch)
      case None => Step(c, UnsupportedHost)
      case Some(url) =>
        var current := ReadLatestVersion(c, p.repo, p.org, p.name);
        var response := remote(url);
        if response.status != 200 then Step(c, ManifestMissing(p.name))
        else if "version" !in response.manifest then Step(c, NoVersionField)
        else
          var version := response.manifest["version"];
          if Some(version) != current
          then Step(WriteLatestVersion(c, p.repo, p.org, p.name, version, response.manifest).0, Updated(version))
          else Step(c, Unchanged)
  }

  /** A version offered with surrounding whitespace is written on every pass:
      the marker is read back stripped, so it never equals the offer. */
  lemma PaddedVersionAlwaysRewrites(c: CacheState, row: seq<string>, remote: string -> Fetch)
    requires Offered(row, remote).Some?
    requires !IsStripped(Offered(row, remote).value.version)
    ensures CheckRow(c, row, remote).outcome.Updated?
  {
  }

  /** Checking the same row twice against the same response writes at most
      once: the second check finds the marker equal to the offered version. */
  lemma RowTwiceWritesOnce(c: CacheState, row: seq<string>, remote: string -> Fetch)
    requires Offered(row, remote).Some? ==> IsStripped(Offered(row, remote).value.version)
    ensures var c1 := CheckRow(c, row, remote).cache;
      && !CheckRow(c1, row, remote).outcome.Updated?
      && CheckRow(c1, row, remote).cache == c1
  {
    var s := CheckRow(c, row, remote);
    if s.outcome.Updated? {
      var o := Offered(row, remote).value;
      ReadAfterWrite(c, o.project.repo, o.project.org, o.project.name, o.version, o.manifest);
    }
  }

  /** The result of one pass over the watch-list. */
  datatype Pass = Pass(cache: CacheState, missing: seq<string>)

  /** The names of four-field github rows whose fetch did not answer 200, in
      row order: what a pass reports, whatever the cache holds. */
  function MissingNames(rows: seq<seq<string>>, remote: string -> Fetch): seq<string>
    decreases |rows|
  {
    if |rows| == 0 then []
    else
      (if FetchFails(rows[0], remote) then [Strip(rows[0][2])] else []) + MissingNames(rows[1..], remote)
  }

  /** The loop of `check_updates_from_file` over the rows, collecting the
      names whose manifest could not be fetched. */
  function CheckUpdates(c: CacheState, rows: seq<seq<string>>, remote: string -> Fetch): (p: Pass)
    ensures p.missing == MissingNames(rows, remote)
    ensures |p.missing| <= |rows|
    decreases |rows|
  {
    if |rows| == 0 then Pass(c, [])
    else
      var s := CheckRow(c, rows[0], remote);
      var rest := CheckUpdates(s.cache, rows[1..], remote);
      Pass(rest.cache, (if s.outcome.ManifestMissing? then [s.outcome.name] else []) + rest.missing)
  }

  /** Every offered version is free of surrounding whitespace. */
  ghost predicate OffersStripped(rows: seq<seq<string>>, remote: string -> Fetch) {
    forall i :: 0 <= i < |rows| ==> OfferStripped(rows[i], remote)
  }

  ghost predicate OfferStripped(row: seq<string>, remote: string -> Fetch) {
    Offered(row, remote).Some? ==> IsStripped(Offered(row, remote).value.version)
  }

  /** Rows offering a version for the same package folder offer the same one. */
  ghost predicate OffersAgree(rows: seq<seq<string>>, remote: string -> Fetch) {
    forall i, j :: 0 <= i < |rows| && 0 <= j < |rows| ==> Agree(rows[i], rows[j], remote)
  }

  ghost predicate Agree(row1: seq<string>, row2: seq<string>, remote: string -> Fetch) {
    (Offered(row1, remote).Some? && Offered(row2, remote).Some?
      && OfferFolder(Offered(row1, remote).value) == OfferFolder(Offered(row2, remote).value))
      ==> Offered(row1, remote).value.version == Offered(row2, remote).value.version
  }

  /** Every offered version is already the package's marker. */
  ghost predicate Settled(c: CacheState, rows: seq<seq<string>>, remote: string -> Fetch)
    decreases |rows|
  {
    |rows| > 0 ==> RowSettled(c, rows[0], remote) && Settled(c, rows[1..], remote)
  }

  ghost predicate RowSettled(c: CacheState, row: seq<string>, remote: string -> Fetch) {
    Offered(row, remote).Some? ==>
      Marker(c, OfferFolder(Offered(row, remote).value)) == Some(Offered(row, remote).value.version)
  }

  /** One row keeps a folder's marker at `v` when any version it offers for
      that folder is `v`. */
  lemma RowKeepsMarker(c: CacheState, row: seq<string>, remote: string -> Fetch, folder: string, v: string)
    requires Marker(c, folder) == Some(v)
    requires OffersAt(row, remote, folder, v)
    ensures Marker(CheckRow(c, row, remote).cache, folder) == Some(v)
  {
    var s := CheckRow(c, row, remote);
    if s.outcome.Updated? {
      var o := Offered(row, remote).value;
      if OfferFolder(o) != folder {
        WriteLeavesOthers(c, o.project.repo, o.project.org, o.project.name, o.version, o.manifest, folder);
      }
    }
  }

  /** Any version `row` offers for `folder` is `v`. */
  predicate OffersAt(row: seq<string>, remote: string -> Fetch, folder: string, v: string) {
    Offered(row, remote).Some? && OfferFolder(Offered(row, remote).value) == folder ==>
      Offered(row, remote).value.version == v
  }

  /** A pass keeps a folder's marker at `v` when every version offered for
      that folder is `v`. */
  lemma {:induction false} PassKeepsMarker(c: CacheState, rows: seq<seq<string>>, remote: string -> Fetch,
                                           folder: string, v: string)
    requires Marker(c, folder) == Some(v)
    requires forall i :: 0 <= i < |rows| ==> OffersAt(rows[i], remote, folder, v)
    ensures Marker(CheckUpdates(c, rows, remote).cache, folder) == Some(v)
    decreases |rows|
  {
    if |rows| > 0 {
      RowKeepsMarker(c, rows[0], remote, folder, v);
      var c1 := CheckRow(c, rows[0], remote).cache;
      assert forall i :: 0 <= i < |rows[1..]| ==> rows[1..][i] == rows[i + 1];
      PassKeepsMarker(c1, rows[1..], remote, folder, v);
    }
  }

  /** After checking a row whose version is stripped, the row is settled. */
  lemma RowSettles(c: CacheState, row: seq<string>, remote: string -> Fetch)
    requires OfferStripped(row, remote)
    ensures RowSettled(CheckRow(c, row, remote).cache, row, remote)
  {
    if CheckRow(c, row, remote).outcome.Updated? {
      var o := Offered(row, remote).value;
      ReadAfterWrite(c, o.project.repo, o.project.org, o.project.name, o.version, o.manifest);
    }
  }

  /** The conditions on the rows hold for the rows after the first. */
  lemma OffersTail(rows: seq<seq<string>>, remote: string -> Fetch)
    requires |rows| > 0
    requires OffersStripped(rows, remote) && OffersAgree(rows, remote)
    ensures OffersStripped(rows[1..], remote) && OffersAgree(rows[1..], remote)
  {
    var tail := rows[1..];
    assert forall i :: 0 <= i < |tail| ==> tail[i] == rows[i + 1];
    forall i, j | 0 <= i < |tail| && 0 <= j < |tail|
      ensures Agree(tail[i], tail[j], remote)
    {
      assert Agree(rows[i + 1], rows[j + 1], remote);
    }
  }

  /** The first row stays settled through the rest of the pass. */
  lemma HeadStaysSettled(c: CacheState, rows: seq<seq<string>>, remote: string -> Fetch)
    requires |rows| > 0
    requires OffersStripped(rows, remote) && OffersAgree(rows, remote)
    ensures RowSettled(CheckUpdates(CheckRow(c, rows[0], remote).cache, rows[1..], remote).cache, rows[0], remote)
  {
    var c1 := CheckRow(c, rows[0], remote).cache;
    assert OfferStripped(rows[0], remote);
    RowSettles(c, rows[0], remote);
    if Offered(rows[0], remote).Some? {
      var o := Offered(rows[0], remote).value;
      var tail := rows[1..];
      forall i | 0 <= i < |tail|
        ensures OffersAt(tail[i], remote, OfferFolder(o), o.version)
      {
        assert tail[i] == rows[i + 1];
        assert Agree(rows[i + 1], rows[0], remote);
      }
      PassKeepsMarker(c1, tail, remote, OfferFolder(o), o.version);
    }
  }

  /** After one pass, every offered version is its package's marker. */
  lemma {:induction false} FirstPassSettles(c: CacheState, rows: seq<seq<string>>, remote: string -> Fetch)
    requires OffersStripped(rows, remote)
    requires OffersAgree(rows, remote)
    ensures Settled(CheckUpdates(c, rows, remote).cache, rows, remote)
    decreases |rows|
  {
    if |rows| > 0 {
      var c1 := CheckRow(c, rows[0], remote).cache;
      var cEnd := CheckUpdates(c1, rows[1..], remote).cache;
      assert CheckUpdates(c, rows, remote).cache == cEnd;
      OffersTail(rows, remote);
      FirstPassSettles(c1, rows[1..], remote);
      HeadStaysSettled(c, rows, remote);
    }
  }

  /** A pass over settled rows writes nothing. */
  lemma {:induction false} SettledPassWritesNothing(c: CacheState, rows: seq<seq<string>>, remote: string -> Fetch)
    requires Settled(c, rows, remote)
    ensures CheckUpdates(c, rows, remote).cache == c
    decreases |rows|
  {
    if |rows| > 0 {
      assert RowSettled(c, rows[0], remote);
      assert CheckRow(c, rows[0], remote).cache == c;
      SettledPassWritesNothing(c, rows[1..], remote);
    }
  }

  /** Settledness depends on the markers alone. */
  lemma {:induction false} SettledSameMarkers(c: CacheState, c': CacheState, rows: seq<seq<string>>, remote: string -> Fetch)
    requires c.markers == c'.markers
    requires Settled(c, rows, remote)
    ensures Settled(c', rows, remote)
    decreases |rows|
  {
    if |rows| > 0 {
      SettledSameMarkers(c, c', rows[1..], remote);
    }
  }

  /** Running the checker twice in a row against unchanged manifests: the
      second pass records no new version and changes no marker, history,
      change log or snapshot; it reports the same missing manifests. */
  lemma SecondPassChangesNothing(c: CacheState, rows: seq<seq<string>>, remote: string -> Fetch)
    requires OffersStripped(rows, remote)
    requires OffersAgree(rows, remote)
    ensures var first := CheckUpdates(c, rows, remote);
      && CheckUpdates(first.cache, rows, remote).cache == first.cache
      && CheckUpdates(first.cache, rows, remote).missing == first.missing
  {
    FirstPassSettles(c, rows, remote);
    SettledPassWritesNothing(CheckUpdates(c, rows, remote).cache, rows, remote);
  }

  /** The outcome of the whole program. `Completed` carries the feed entries
      and the projects reported without a `package.json`; `Aborted` is a run
      that `generate_feeds` ended with an exception, before that report. */
  datatype Run =
    | Completed(cache: CacheState, feed: seq<FeedEntry>, missing: seq<string>)
    | Aborted(cache: CacheState)

  /** `check_updates_from_file`: one pass over the rows, then the feed of the
      last `FeedSize` changes, then the report. Whether or not feed
      generation raises, the cache holds the pass's writes and a change log
      already cut to its last `FeedSize` lines. */
  function CheckUpdatesFromFile(c: CacheState, rows: seq<seq<string>>, remote: string -> Fetch): (r: Run)
    ensures r.Completed? <==> GenerateFeeds(CheckUpdates(c, rows, remote).cache, FeedSize).Some?
    ensures r.Completed? ==> r.missing == MissingNames(rows, remote)
    ensures r.Completed? ==>
      var after := CheckUpdates(c, rows, remote).cache;
      ListsBackwards(after.snapshots, Truncation(after.log, FeedSize).value.lines, r.feed)
  {
    var pass := CheckUpdates(c, rows, remote);
    match GenerateFeeds(pass.cache, FeedSize)
    case None => Aborted(FeedsCache(pass.cache, FeedSize))
    case Some(g) =>
      FeedInOrder(pass.cache, FeedSize);
      Completed(g.cache, g.entries, pass.missing)
  }

  /** Whether or not feed generation raises, the run leaves the cache as the
      pass left it but for a change log cut to its last `FeedSize` lines. */
  lemma RunCache(c: CacheState, rows: seq<seq<string>>, remote: string -> Fetch)
    ensures CheckUpdatesFromFile(c, rows, remote).cache == FeedsCache(CheckUpdates(c, rows, remote).cache, FeedSize)
  {
  }

  /** A run aborted with a change log present failed on a retained line
      naming no snapshot, after the log had been cut to those lines. */
  lemma AbortAfterTruncation(c: CacheState, rows: seq<seq<string>>, remote: string -> Fetch)
    requires CheckUpdates(c, rows, remote).cache.log.Some?
    requires CheckUpdatesFromFile(c, rows, remote).Aborted?
    ensures var entries := Entries(CheckUpdates(c, rows, remote).cache.log.value);
      var r := CheckUpdatesFromFile(c, rows, remote);
      && r.cache.log.Some?
      && ReadLines(r.cache.log.value) == entries[|entries| - Min(|entries|, FeedSize)..]
      && !Stored(r.cache.snapshots, ReadLines(r.cache.log.value))
  {
    RunCache(c, rows, remote);
  }

  /** Running the whole program a second time with unchanged manifests gives
      the same cache, the same feed and the same report. */
  lemma RunTwiceSameResult(c: CacheState, rows: seq<seq<string>>, remote: string -> Fetch)
    requires OffersStripped(rows, remote)
    requires OffersAgree(rows, remote)
    requires CheckUpdatesFromFile(c, rows, remote).Completed?
    ensures CheckUpdatesFromFile(CheckUpdatesFromFile(c, rows, remote).cache, rows, remote)
         == CheckUpdatesFromFile(c, rows, remote)
  {
    var c1 := CheckUpdates(c, rows, remote).cache;
    FirstPassSettles(c, rows, remote);
    var g := GenerateFeeds(c1, FeedSize).value;
    FeedKeepsSnapshots(c1, FeedSize);
    SettledSameMarkers(c1, g.cache, rows, remote);
    SettledPassWritesNothing(g.cache, rows, remote);
    GenerateFeedsIdempotent(c1, FeedSize);
  }

  /** A four-field row whose fields have no surrounding whitespace. */
  function Row(org: string, name: string, branch: string): seq<string> {
    [GitHub, org, name, branch]
  }

  /** The row of a package the cache has never seen offers the manifest's
      version and is not yet known. */
  lemma FreshRowOffers(c: CacheState, org: string, name: string, branch: string,
                       remote: string -> Fetch, m: Manifest)
    requires IsStripped(org) && IsStripped(name) && IsStripped(branch)
    requires PackageFolder(GitHub, org, name) !in c.markers
    requires remote(MakeUrl(GitHub, org, name, branch).value) == Fetch(200, m)
    requires "version" in m
    ensures Offered(Row(org, name, branch), remote) == Some(Offer(Project(GitHub, org, name, branch), m["version"], m))
    ensures !Known(c, Offered(Row(org, name, branch), remote).value)
  {
    GitHubText();
    assert ParseRow(Row(org, name, branch)) == Some(Project(GitHub, org, name, branch));
  }

  /** A one-row pass whose row offers an unknown version writes it. */
  lemma OneRowUpdates(c: CacheState, row: seq<string>, remote: string -> Fetch)
    requires Offered(row, remote).Some? && !Known(c, Offered(row, remote).value)
    ensures var o := Offered(row, remote).value;
      CheckUpdates(c, [row], remote)
      == Pass(WriteLatestVersion(c, o.project.repo, o.project.org, o.project.name, o.version, o.manifest).0, [])
  {
    OneRowPass(c, row, remote);
  }

  /** A pass over a single row is that row's step. */
  lemma OneRowPass(c: CacheState, row: seq<string>, remote: string -> Fetch)
    ensures var s := CheckRow(c, row, remote);
      CheckUpdates(c, [row], remote)
      == Pass(s.cache, if s.outcome.ManifestMissing? then [s.outcome.name] else [])
  {
    assert [row][0] == row && [row][1..] == [];
  }

  /** A package the cache has never seen is recorded on its first check. */
  lemma FreshRowUpdates(c: CacheState, org: string, name: string, branch: string,
                        remote: string -> Fetch, m: Manifest)
    requires IsStripped(org) && IsStripped(name) && IsStripped(branch)
    requires PackageFolder(GitHub, org, name) !in c.markers
    requires remote(MakeUrl(GitHub, org, name, branch).value) == Fetch(200, m)
    requires "version" in m
    ensures CheckUpdates(c, [Row(org, name, branch)], remote)
         == Pass(WriteLatestVersion(c, GitHub, org, name, m["version"], m).0, [])
  {
    FreshRowOffers(c, org, name, branch, remote, m);
    OneRowUpdates(c, Row(org, name, branch), remote);
  }

  /** The change log holds exactly `lines`, each stripped, free of line
      feeds and naming a stored snapshot. */
  ghost predicate CleanLog(c: CacheState, lines: seq<string>) {
    && c.log == Some(Render(lines))
    && NoNewlines(lines)
    && forall k :: 0 <= k < |lines| ==> IsStripped(lines[k]) && lines[k] in c.snapshots
  }

  /** A log written from stripped, newline-free lines reads back as them. */
  lemma {:induction false} RenderedEntries(all: seq<string>)
    requires NoNewlines(all)
    requires forall k :: 0 <= k < |all| ==> IsStripped(all[k])
    ensures Entries(Render(all)) == all
  {
    RenderThenRead(all);
    assert StripAll(all) == all;
  }

  /** Truncating a clean log keeps its last `FeedSize` lines. */
  lemma CleanLogTruncates(c: CacheState, lines: seq<string>)
    requires CleanLog(c, lines)
    ensures Truncation(c.log, FeedSize)
         == Some(Truncated(Render(LastN(lines, FeedSize)), LastN(lines, FeedSize)))
  {
    RenderedEntries(lines);
  }

  /** Every line of a clean log can be loaded, so feed generation succeeds. */
  lemma CleanLogFeeds(c: CacheState, lines: seq<string>)
    requires CleanLog(c, lines)
    ensures GenerateFeeds(c, FeedSize).Some?
  {
    CleanLogTruncates(c, lines);
    LastNWithin(lines, FeedSize, c.snapshots.Keys);
  }

  /** The last `n` lines are among any set that holds every line. */
  lemma LastNWithin(lines: seq<string>, n: nat, keys: set<string>)
    requires forall k :: 0 <= k < |lines| ==> lines[k] in keys
    ensures forall i :: 0 <= i < |LastN(lines, n)| ==> LastN(lines, n)[i] in keys
  {
    var kept := LastN(lines, n);
    forall i | 0 <= i < |kept|
      ensures kept[i] in keys
    {
      assert kept[i] == lines[|lines| - |kept| + i];
    }
  }

  /** The feed of a non-empty clean log starts with its last line's snapshot. */
  lemma LogFeedsNewestFirst(c: CacheState, lines: seq<string>)
    requires |lines| > 0 && CleanLog(c, lines)
    ensures GenerateFeeds(c, FeedSize).Some?
    ensures |GenerateFeeds(c, FeedSize).value.entries| == Min(|lines|, FeedSize)
    ensures GenerateFeeds(c, FeedSize).value.entries[0]
         == PackageToFeedEntry(lines[|lines| - 1], c.snapshots[lines[|lines| - 1]])
  {
    CleanLogTruncates(c, lines);
    CleanLogFeeds(c, lines);
    FeedOrder(c, FeedSize, 0);
  }

  /** Recording a version appends its snapshot path to a clean log and keeps
      it clean. */
  lemma {:induction false} WriteExtendsLog(c: CacheState, org: string, name: string, v: string,
                                           m: Manifest, prior: seq<string>)
    requires '\n' !in GitHub + org + name + v
    requires CleanLog(c, prior)
    ensures CleanLog(WriteLatestVersion(c, GitHub, org, name, v, m).0, prior + [SnapshotPath(GitHub, org, name, v)])
  {
    var path := SnapshotPath(GitHub, org, name, v);
    var c1 := WriteLatestVersion(c, GitHub, org, name, v, m).0;
    RenderAppend(prior, path);
    SnapshotPathLine(GitHub, org, name, v);
    var all := prior + [path];
    forall k | 0 <= k < |all|
      ensures IsStripped(all[k]) && all[k] in c1.snapshots
    {
      if k < |prior| && all[k] != path {
        assert Lookup(c1.snapshots, all[k]) == Lookup(c.snapshots, all[k]);
      }
    }
  }

  /** A package the cache has never seen, listed with plain fields, whose
      manifest answers 200 with a single-line version; the change log is
      clean. */
  ghost predicate FreshCase(c: CacheState, org: string, name: string, branch: string,
                            remote: string -> Fetch, m: Manifest, prior: seq<string>)
  {
    && IsStripped(org) && IsStripped(name) && IsStripped(branch)
    && '\n' !in org + name && "version" in m && '\n' !in m["version"]
    && PackageFolder(GitHub, org, name) !in c.markers
    && remote(MakeUrl(GitHub, org, name, branch).value) == Fetch(200, m)
    && CleanLog(c, prior)
  }

  /** The cache the pass leaves behind in the fresh case. */
  function FreshWrite(c: CacheState, org: string, name: string, m: Manifest): CacheState
    requires "version" in m
  {
    WriteLatestVersion(c, GitHub, org, name, m["version"], m).0
  }

  /** In the fresh case the log the pass leaves is clean, one line longer. */
  lemma FreshLog(c: CacheState, org: string, name: string, branch: string,
                 remote: string -> Fetch, m: Manifest, prior: seq<string>)
    requires FreshCase(c, org, name, branch, remote, m, prior)
    ensures CleanLog(FreshWrite(c, org, name, m), prior + [SnapshotPath(GitHub, org, name, m["version"])])
  {
    GitHubText();
    NewlineFree(GitHub, org, name, m["version"]);
    WriteExtendsLog(c, org, name, m["version"], m, prior);
  }

  /** In the fresh case the run is the pass's write followed by the feed. */
  lemma FreshRun(c: CacheState, org: string, name: string, branch: string,
                 remote: string -> Fetch, m: Manifest, prior: seq<string>)
    requires FreshCase(c, org, name, branch, remote, m, prior)
    ensures GenerateFeeds(FreshWrite(c, org, name, m), FeedSize).Some?
    ensures CheckUpdatesFromFile(c, [Row(org, name, branch)], remote)
         == Completed(GenerateFeeds(FreshWrite(c, org, name, m), FeedSize).value.cache,
                      GenerateFeeds(FreshWrite(c, org, name, m), FeedSize).value.entries, [])
  {
    FreshLog(c, org, name, branch, remote, m, prior);
    CleanLogFeeds(FreshWrite(c, org, name, m), prior + [SnapshotPath(GitHub, org, name, m["version"])]);
    FreshRowUpdates(c, org, name, branch, remote, m);
    RunAfterPass(c, [Row(org, name, branch)], remote, FreshWrite(c, org, name, m));
  }

  /** A pass that reports nothing missing, followed by a successful feed
      generation, makes the run's result. */
  lemma RunAfterPass(c: CacheState, rows: seq<seq<string>>, remote: string -> Fetch, c1: CacheState)
    requires CheckUpdates(c, rows, remote) == Pass(c1, [])
    requires GenerateFeeds(c1, FeedSize).Some?
    ensures CheckUpdatesFromFile(c, rows, remote)
         == Completed(GenerateFeeds(c1, FeedSize).value.cache, GenerateFeeds(c1, FeedSize).value.entries, [])
  {
  }

  /** What the fresh run leaves in the cache: the version as the marker, the
      manifest as the snapshot, and the log cut to its last `FeedSize` lines. */
  lemma FreshCacheAfterRun(c: CacheState, org: string, name: string, branch: string,
                           remote: string -> Fetch, m: Manifest, prior: seq<string>)
    requires FreshCase(c, org, name, branch, remote, m, prior)
    ensures var r := CheckUpdatesFromFile(c, [Row(org, name, branch)], remote);
      var path := SnapshotPath(GitHub, org, name, m["version"]);
      && r.Completed? && r.missing == []
      && Lookup(r.cache.markers, PackageFolder(GitHub, org, name)) == Some(m["version"])
      && Lookup(r.cache.snapshots, path) == Some(m)
      && r.cache.log == Some(Render(LastN(prior + [path], FeedSize)))
  {
    var c1 := FreshWrite(c, org, name, m);
    FreshRun(c, org, name, branch, remote, m, prior);
    FreshLog(c, org, name, branch, remote, m, prior);
    CleanLogTruncates(c1, prior + [SnapshotPath(GitHub, org, name, m["version"])]);
    FeedKeepsSnapshots(c1, FeedSize);
  }

  /** A first check of a package the cache has never seen, whose manifest
      answers 200 with a version: the marker holds the version, the snapshot
      holds the manifest, the change log gains the snapshot path, and the
      feed's first entry describes the new version. */
  lemma FreshPackageRun(c: CacheState, org: string, name: string, branch: string,
                        remote: string -> Fetch, m: Manifest, prior: seq<string>)
    requires FreshCase(c, org, name, branch, remote, m, prior)
    ensures var r := CheckUpdatesFromFile(c, [Row(org, name, branch)], remote);
      var path := SnapshotPath(GitHub, org, name, m["version"]);
      && r.Completed? && r.missing == []
      && Lookup(r.cache.markers, PackageFolder(GitHub, org, name)) == Some(m["version"])
      && Lookup(r.cache.snapshots, path) == Some(m)
      && r.cache.log == Some(Render(LastN(prior + [path], FeedSize)))
      && |r.feed| == Min(|prior| + 1, FeedSize)
      && r.feed[0] == PackageToFeedEntry(path, m)
      && r.feed[0].guid == org + "/" + name + "/" + m["version"] + ".json"
  {
    var r := CheckUpdatesFromFile(c, [Row(org, name, branch)], remote);
    FreshCacheAfterRun(c, org, name, branch, remote, m, prior);
    FreshRun(c, org, name, branch, remote, m, prior);
    FreshFeedHead(c, org, name, branch, remote, m, prior);
    assert r.feed == GenerateFeeds(FreshWrite(c, org, name, m), FeedSize).value.entries;
  }

  /** The feed of the fresh case starts with the new version. */
  lemma FreshFeedHead(c: CacheState, org: string, name: string, branch: string,
                      remote: string -> Fetch, m: Manifest, prior: seq<string>)
    requires FreshCase(c, org, name, branch, remote, m, prior)
    ensures GenerateFeeds(FreshWrite(c, org, name, m), FeedSize).Some?
    ensures var entries := GenerateFeeds(FreshWrite(c, org, name, m), FeedSize).value.entries;
      var path := SnapshotPath(GitHub, org, name, m["version"]);
      && |entries| == Min(|prior| + 1, FeedSize)
      && entries[0] == PackageToFeedEntry(path, m)
      && entries[0].guid == org + "/" + name + "/" + m["version"] + ".json"
  {
    var path := SnapshotPath(GitHub, org, name, m["version"]);
    FreshLog(c, org, name, branch, remote, m, prior);
    LogFeedsNewestFirst(FreshWrite(c, org, name, m), prior + [path]);
    GitHubText();
    GuidOfSnapshot(GitHub, org, name, m["version"]);
  }

  /** Without a change-log file, a first check of an unseen package runs
      exactly as with an empty one: the write opens the log in append mode,
      which creates it, before feed generation reads it. */
  lemma NoLogFileRun(c: CacheState, org: string, name: string, branch: string,
                     remote: string -> Fetch, m: Manifest)
    requires c.log.None?
    requires FreshCase(c.(log := Some("")), org, name, branch, remote, m, [])
    ensures CheckUpdatesFromFile(c, [Row(org, name, branch)], remote)
         == CheckUpdatesFromFile(c.(log := Some("")), [Row(org, name, branch)], remote)
  {
    var e := c.(log := Some(""));
    FreshRowUpdates(c, org, name, branch, remote, m);
    FreshRowUpdates(e, org, name, branch, remote, m);
    assert WriteLatestVersion(c, GitHub, org, name, m["version"], m).0
        == WriteLatestVersion(e, GitHub, org, name, m["version"], m).0;
  }

  /** The cache before any run: no markers, histories or snapshots, and no
      change-log file. */
  const EmptyCache := CacheState(map[], map[], None, map[])

  /** The same with an empty change-log file. */
  const EmptyLogCache := EmptyCache.(log := Some(""))

  /** The manifest of the example first run below. */
  const WidgetManifest: Manifest :=
    map["name" := "widget", "version" := "1.0.0", "homepage" := "http://x", "description" := "d"]

  /** A first run: watch-list row `github,acme,widget,main`, an
      empty cache without a change-log file, and a manifest with name, version, homepage and
      description. The feed's one entry is `widget 1.0.0`, linking to the
      homepage. */
  lemma WidgetFirstRun(remote: string -> Fetch)
    requires remote(MakeUrl(GitHub, "acme", "widget", "main").value) == Fetch(200, WidgetManifest)
    ensures CheckUpdatesFromFile(EmptyCache, [Row("acme", "widget", "main")], remote).Completed?
    ensures CheckUpdatesFromFile(EmptyCache, [Row("acme", "widget", "main")], remote).missing == []
    ensures Lookup(CheckUpdatesFromFile(EmptyCache, [Row("acme", "widget", "main")], remote).cache.markers,
                   PackageFolder(GitHub, "acme", "widget")) == Some("1.0.0")
    ensures CheckUpdatesFromFile(EmptyCache, [Row("acme", "widget", "main")], remote).feed
         == [FeedEntry("widget 1.0.0", "http://x", "d", "acme/widget/1.0.0.json")]
  {
    WidgetCase(remote);
    NoLogFileRun(EmptyCache, "acme", "widget", "main", remote, WidgetManifest);
    FreshPackageRun(EmptyLogCache, "acme", "widget", "main", remote, WidgetManifest, []);
    var path := SnapshotPath(GitHub, "acme", "widget", "1.0.0");
    WidgetEntry(path);
    var feed := CheckUpdatesFromFile(EmptyCache, [Row("acme", "widget", "main")], remote).feed;
    Singleton(feed, FeedEntry("widget 1.0.0", "http://x", "d", "acme/widget/1.0.0.json"));
  }

  lemma WidgetCase(remote: string -> Fetch)
    requires remote(MakeUrl(GitHub, "acme", "widget", "main").value) == Fetch(200, WidgetManifest)
    ensures WidgetManifest["version"] == "1.0.0"
    ensures FreshCase(EmptyLogCache, "acme", "widget", "main", remote, WidgetManifest, [])
  {
    assert IsStripped("acme") && IsStripped("widget") && IsStripped("main");
    assert '\n' !in "acme" + "widget" && '\n' !in "1.0.0";
    assert Render([]) == "";
    assert CleanLog(EmptyLogCache, []);
  }

  /** The entry for the widget manifest, and its guid when the manifest is
      stored at its snapshot path. */
  lemma WidgetEntry(path: string)
    requires path == SnapshotPath(GitHub, "acme", "widget", "1.0.0")
    ensures PackageToFeedEntry(path, WidgetManifest) == FeedEntry("widget 1.0.0", "http://x", "d", "acme/widget/1.0.0.json")
  {
    WidgetFields(path);
    WidgetGuid();
  }

  lemma WidgetFields(path: string)
    ensures var e := PackageToFeedEntry(path, WidgetManifest);
      e.title == "widget 1.0.0" && e.link == "http://x" && e.description == "d"
  {
    var m := WidgetManifest;
    assert m["name"] == "widget" && m["version"] == "1.0.0";
  }

  lemma WidgetGuid()
    ensures Guid(SnapshotPath(GitHub, "acme", "widget", "1.0.0")) == "acme/widget/1.0.0.json"
  {
    GitHubText();
    GuidOfSnapshot(GitHub, "acme", "widget", "1.0.0");
  }
}
