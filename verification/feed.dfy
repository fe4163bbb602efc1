/** The feed generator: project each retained change-log line to a feed
    entry (`package_to_feed_entry`) and list the entries newest first
    (`generate_feeds`). Rendering the entries as RSS 2.0 and Atom documents
    is not part of this model. */
module Feed {
  import opened Base
  import opened Text
  import opened LineFile
  import opened Cache
  import opened ReleaseLog

  /** How many change-log lines the feed keeps. */
  const FeedSize: nat := 100

  datatype FeedEntry = FeedEntry(title: string, link: string, description: string, guid: string)

  /** Python's `d.get(key, default)`: keyed on presence, so an empty value is kept. */
  function Get(m: Manifest, key: string, default: string): string {
    Lookup(m, key).GetOr(default)
  }

  /** `"/".join(path.split("/")[2:])`: the path without its first two components. */
  function Guid(path: string): string {
    var parts := Split(path, '/');
    if |parts| <= 2 then "" else Join(parts[2..], '/')
  }

  /** `package_to_feed_entry` applied to the manifest stored at `path`. The
      title is name and version separated by one space, each empty when
      missing; the link is `homepage` whenever that key is present, even with
      an empty value, else `url`, else empty; a missing description is empty. */
  function PackageToFeedEntry(path: string, pkg: Manifest): (e: FeedEntry)
    ensures e.title == (if "name" in pkg then pkg["name"] else "") + " " + (if "version" in pkg then pkg["version"] else "")
    ensures "homepage" in pkg ==> e.link == pkg["homepage"]
    ensures "homepage" !in pkg && "url" in pkg ==> e.link == pkg["url"]
    ensures "homepage" !in pkg && "url" !in pkg ==> e.link == ""
    ensures "description" in pkg ==> e.description == pkg["description"]
    ensures "description" !in pkg ==> e.description == ""
  {
    FeedEntry(
      Get(pkg, "name", "") + " " + Get(pkg, "version", ""),
      Get(pkg, "homepage", Get(pkg, "url", "")),
      Get(pkg, "description", ""),
      Guid(path))
  }

  /** The guid of a snapshot drops `cache` and the host kind: it is
      `{org}/{name}/{version}.json`, whatever the org, name and version hold. */
  lemma {:induction false} GuidOfSnapshot(repo: string, org: string, name: string, version: string)
    requires '/' !in repo
    ensures Guid(SnapshotPath(repo, org, name, version)) == org + "/" + name + "/" + version + ".json"
  {
    var rest := org + "/" + name + "/" + version + ".json";
    assert SnapshotPath(repo, org, name, version) == "cache" + ['/'] + (repo + ['/'] + rest);
    assert '/' !in "cache";
    SplitCons(repo, rest, '/');
    SplitCons("cache", repo + ['/'] + rest, '/');
    var parts := Split(SnapshotPath(repo, org, name, version), '/');
    assert parts == ["cache", repo] + Split(rest, '/');
    assert parts[2..] == Split(rest, '/');
    JoinSplit(rest, '/');
  }

  /** Every path names a stored snapshot. */
  ghost predicate Stored(snapshots: map<string, Manifest>, paths: seq<string>) {
    forall i :: 0 <= i < |paths| ==> paths[i] in snapshots
  }

  /** Loads the manifest behind each path in turn; `None` as soon as one is
      missing, which aborts feed generation. */
  function LoadEntries(snapshots: map<string, Manifest>, paths: seq<string>): (r: Option<seq<FeedEntry>>)
    ensures r.Some? <==> Stored(snapshots, paths)
    ensures r.Some? ==> |r.value| == |paths|
    ensures r.Some? ==> forall i :: 0 <= i < |paths| ==>
      r.value[i] == PackageToFeedEntry(paths[i], snapshots[paths[i]])
    decreases |paths|
  {
    if |paths| == 0 then Some([])
    else if paths[0] !in snapshots then None
    else match LoadEntries(snapshots, paths[1..])
      case None => None
      case Some(rest) => Some([PackageToFeedEntry(paths[0], snapshots[paths[0]])] + rest)
  }

  /** The cache after truncation and the feed entries, newest first. */
  datatype Generated = Generated(cache: CacheState, entries: seq<FeedEntry>)

  /** `generate_feeds`: truncate the change log to `count` lines, load each
      retained snapshot and reverse, so the most recent change comes first.
      `None` when the log file is missing or a retained line names no
      snapshot; both abort the program. */
  function GenerateFeeds(c: CacheState, count: nat): (r: Option<Generated>)
    ensures r.Some? <==> c.log.Some? && Stored(c.snapshots, Truncation(c.log, count).value.lines)
    ensures r.Some? ==>
      && r.value.cache == c.(log := Some(Truncation(c.log, count).value.text))
      && |r.value.entries| == |Truncation(c.log, count).value.lines|
  {
    match Truncation(c.log, count)
    case None => None
    case Some(t) =>
      match LoadEntries(c.snapshots, t.lines)
      case None => None
      case Some(entries) => Some(Generated(c.(log := Some(t.text)), Reverse(entries)))
  }

  /** The cache `generate_feeds` leaves behind, whether or not it then
      raises: truncation rewrites the log before any snapshot is opened, so
      only a missing log, which raises at once, leaves the cache untouched. */
  function FeedsCache(c: CacheState, count: nat): (r: CacheState)
    ensures GenerateFeeds(c, count).Some? ==> r == GenerateFeeds(c, count).value.cache
    ensures r.markers == c.markers && r.histories == c.histories && r.snapshots == c.snapshots
    ensures r.log.Some? <==> c.log.Some?
    ensures c.log.Some? ==>
      var entries := Entries(c.log.value);
      ReadLines(r.log.value) == entries[|entries| - Min(|entries|, count)..]
  {
    match Truncation(c.log, count)
    case None => c
    case Some(t) =>
      TruncationKeepsSuffix(c.log, count);
      c.(log := Some(t.text))
  }

  /** Feed entry `i` comes from retained line `n - 1 - i`: the newest retained
      change is listed first. */
  lemma FeedOrder(c: CacheState, count: nat, i: nat)
    requires GenerateFeeds(c, count).Some?
    requires i < |Truncation(c.log, count).value.lines|
    ensures var kept := Truncation(c.log, count).value.lines;
      && kept[|kept| - 1 - i] in c.snapshots
      && GenerateFeeds(c, count).value.entries[i]
         == PackageToFeedEntry(kept[|kept| - 1 - i], c.snapshots[kept[|kept| - 1 - i]])
  {
    FeedInOrder(c, count);
  }

  /** `entries` lists `lines` backwards: one entry per line, entry `i`
      describing line `i` counted from the end, whose snapshot is stored. */
  predicate ListsBackwards(snapshots: map<string, Manifest>, lines: seq<string>, entries: seq<FeedEntry>) {
    && |entries| == |lines|
    && forall i :: 0 <= i < |lines| ==>
         lines[|lines| - 1 - i] in snapshots
         && entries[i] == PackageToFeedEntry(lines[|lines| - 1 - i], snapshots[lines[|lines| - 1 - i]])
  }

  /** The whole feed lists the retained lines backwards. */
  lemma FeedInOrder(c: CacheState, count: nat)
    requires GenerateFeeds(c, count).Some?
    ensures ListsBackwards(c.snapshots, Truncation(c.log, count).value.lines, GenerateFeeds(c, count).value.entries)
  {
    FeedEntries(c, count);
    ReversedLoad(c.snapshots, Truncation(c.log, count).value.lines, GenerateFeeds(c, count).value.entries);
  }

  /** Loaded entries, reversed, list their lines backwards. */
  lemma ReversedLoad(snapshots: map<string, Manifest>, lines: seq<string>, entries: seq<FeedEntry>)
    requires LoadEntries(snapshots, lines).Some?
    requires entries == Reverse(LoadEntries(snapshots, lines).value)
    ensures ListsBackwards(snapshots, lines, entries)
  {
    forall i | 0 <= i < |lines|
      ensures lines[|lines| - 1 - i] in snapshots
      ensures entries[i] == PackageToFeedEntry(lines[|lines| - 1 - i], snapshots[lines[|lines| - 1 - i]])
    {
      LoadedBackwards(snapshots, lines, i);
    }
  }

  /** The feed is the retained lines' entries, reversed. */
  lemma FeedEntries(c: CacheState, count: nat)
    requires GenerateFeeds(c, count).Some?
    ensures LoadEntries(c.snapshots, Truncation(c.log, count).value.lines).Some?
    ensures GenerateFeeds(c, count).value.entries
         == Reverse(LoadEntries(c.snapshots, Truncation(c.log, count).value.lines).value)
  {
  }

  /** Reversing the loaded entries puts line `n - 1 - i` at position `i`. */
  lemma LoadedBackwards(snapshots: map<string, Manifest>, lines: seq<string>, i: nat)
    requires LoadEntries(snapshots, lines).Some?
    requires i < |lines|
    ensures lines[|lines| - 1 - i] in snapshots
    ensures Reverse(LoadEntries(snapshots, lines).value)[i]
         == PackageToFeedEntry(lines[|lines| - 1 - i], snapshots[lines[|lines| - 1 - i]])
  {
    LoadedAt(snapshots, lines, |lines| - 1 - i);
    ReverseAt(LoadEntries(snapshots, lines).value, i);
  }

  /** Entry `k` of the loaded list describes line `k`. */
  lemma LoadedAt(snapshots: map<string, Manifest>, lines: seq<string>, k: nat)
    requires LoadEntries(snapshots, lines).Some?
    requires k < |lines|
    ensures lines[k] in snapshots
    ensures LoadEntries(snapshots, lines).value[k] == PackageToFeedEntry(lines[k], snapshots[lines[k]])
  {
  }

  /** A log of at most `count` stripped lines survives truncation whole. */
  lemma {:induction false} ShortLogKept(lines: seq<string>, count: nat)
    requires NoNewlines(lines)
    requires forall i :: 0 <= i < |lines| ==> IsStripped(lines[i])
    requires |lines| <= count
    ensures Truncation(Some(Render(lines)), count).value.lines == lines
  {
    RenderThenRead(lines);
    assert StripAll(lines) == lines;
  }

  /** A log holding lines p1 .. pn, oldest first, within the bound, gives the
      feed pn .. p1: for example [p1, p2, p3] with titles A, B, C is listed
      as C, B, A. */
  lemma {:induction false} FeedListsLogBackwards(c: CacheState, lines: seq<string>, count: nat, i: nat)
    requires c.log == Some(Render(lines))
    requires NoNewlines(lines)
    requires forall k :: 0 <= k < |lines| ==> IsStripped(lines[k]) && lines[k] in c.snapshots
    requires |lines| <= count
    requires i < |lines|
    ensures GenerateFeeds(c, count).Some?
    ensures |GenerateFeeds(c, count).value.entries| == |lines|
    ensures GenerateFeeds(c, count).value.entries[i]
         == PackageToFeedEntry(lines[|lines| - 1 - i], c.snapshots[lines[|lines| - 1 - i]])
  {
    ShortLogKept(lines, count);
    FeedOrder(c, count, i);
  }

  /** Truncation never touches snapshots: a discarded line's snapshot is
      still stored, only no longer reachable from the log. */
  lemma FeedKeepsSnapshots(c: CacheState, count: nat)
    requires GenerateFeeds(c, count).Some?
    ensures GenerateFeeds(c, count).value.cache.snapshots == c.snapshots
    ensures GenerateFeeds(c, count).value.cache.markers == c.markers
    ensures GenerateFeeds(c, count).value.cache.histories == c.histories
  {
  }

  /** Generating the feed twice in a row gives the same feed and leaves the
      cache as the first run left it. */
  lemma GenerateFeedsIdempotent(c: CacheState, count: nat)
    requires GenerateFeeds(c, count).Some?
    ensures var g := GenerateFeeds(c, count).value;
      GenerateFeeds(g.cache, count) == Some(g)
  {
    TruncationIdempotent(c.log, count);
  }
}
