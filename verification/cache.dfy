/** The `cache/` tree as one immutable value, and the version store that
    reads and writes it (`read_latest_version`, `write_latest_version`).

    Every file is kept as its text, keyed by the path string the program
    builds, so two packages whose path strings coincide share their files
    just as they would on disk. */
module Cache {
  import opened Base
  import opened Text
  import opened LineFile

  /** A package manifest (`package.json`) as its string-valued fields. */
  type Manifest = map<string, string>

  datatype CacheState = CacheState(
    /** package folder -> text of its `version` file (latest version marker) */
    markers: map<string, string>,
    /** package folder -> text of its `versions` file (version history) */
    histories: map<string, string>,
    /** text of `cache/releases` (the global change log), `None` when the file does not exist */
    log: Option<string>,
    /** snapshot path -> manifest stored in that `{version}.json` file */
    snapshots: map<string, Manifest>)

  /** `cache/{repo}/{org}/{name}`: the folder holding one package's files. */
  function PackageFolder(repo: string, org: string, name: string): string {
    "cache/" + repo + "/" + org + "/" + name
  }

  /** `cache/{repo}/{org}/{name}/{version}.json`: the path of one snapshot,
      which is also the line the change log records for it. */
  function SnapshotPath(repo: string, org: string, name: string, version: string): string {
    PackageFolder(repo, org, name) + "/" + version + ".json"
  }

  /** A snapshot path starts with `c` and ends with `n`, so stripping leaves
      it alone; it holds a line feed only if one of its parts does. */
  lemma SnapshotPathLine(repo: string, org: string, name: string, version: string)
    ensures IsStripped(SnapshotPath(repo, org, name, version))
    ensures '\n' !in repo + org + name + version ==> '\n' !in SnapshotPath(repo, org, name, version)
  {
  }

  /** The stripped text of a folder's marker file, if the file exists. */
  function Marker(c: CacheState, folder: string): (r: Option<string>)
    ensures r.None? <==> folder !in c.markers
    ensures r.Some? ==> r.value == Strip(c.markers[folder]) && IsStripped(r.value)
  {
    if folder in c.markers then Some(Strip(c.markers[folder])) else None
  }

  /** The history file's text, empty when the file does not exist yet. */
  function History(c: CacheState, folder: string): string {
    Lookup(c.histories, folder).GetOr("")
  }

  /** `read_latest_version`: `None` when the package was never written, else
      the marker's text with surrounding whitespace removed. */
  function ReadLatestVersion(c: CacheState, repo: string, org: string, name: string): (r: Option<string>)
    ensures r.None? <==> PackageFolder(repo, org, name) !in c.markers
    ensures r.Some? ==> r.value == Strip(c.markers[PackageFolder(repo, org, name)])
    ensures r.Some? ==> IsStripped(r.value)
  {
    Marker(c, PackageFolder(repo, org, name))
  }

  /** `write_latest_version`: overwrite the marker, append the snapshot path to
      the change log (creating it if needed), append the version to the
      history, store the manifest as the snapshot, and return the version. */
  function WriteLatestVersion(c: CacheState, repo: string, org: string, name: string,
                              version: string, package: Manifest): (r: (CacheState, string))
    ensures r.1 == version
    ensures var c' := r.0; var folder := PackageFolder(repo, org, name);
      && folder in c'.markers && c'.markers[folder] == version
      && (forall f :: f != folder ==> Lookup(c'.markers, f) == Lookup(c.markers, f))
      && History(c', folder) == History(c, folder) + version + "\n"
      && (forall f :: f != folder ==> Lookup(c'.histories, f) == Lookup(c.histories, f))
    ensures var c' := r.0; var path := SnapshotPath(repo, org, name, version);
      && c'.log == Some(c.log.GetOr("") + path + "\n")
      && path in c'.snapshots && c'.snapshots[path] == package
      && (forall p :: p != path ==> Lookup(c'.snapshots, p) == Lookup(c.snapshots, p))
  {
    var folder := PackageFolder(repo, org, name);
    var path := SnapshotPath(repo, org, name, version);
    var c' := CacheState(
      c.markers[folder := version],
      c.histories[folder := History(c, folder) + version + "\n"],
      Some(c.log.GetOr("") + path + "\n"),
      c.snapshots[path := package]);
    (c', version)
  }

  /** Reading right after writing gives the written version, stripped; a
      version without surrounding whitespace is read back exactly. */
  lemma ReadAfterWrite(c: CacheState, repo: string, org: string, name: string,
                       version: string, package: Manifest)
    ensures ReadLatestVersion(WriteLatestVersion(c, repo, org, name, version, package).0,
                              repo, org, name) == Some(Strip(version))
    ensures IsStripped(version) ==>
      ReadLatestVersion(WriteLatestVersion(c, repo, org, name, version, package).0,
                        repo, org, name) == Some(version)
  {
  }

  /** Writing one package leaves every other folder's marker as it was. */
  lemma WriteLeavesOthers(c: CacheState, repo: string, org: string, name: string,
                          version: string, package: Manifest, folder: string)
    requires folder != PackageFolder(repo, org, name)
    ensures Marker(WriteLatestVersion(c, repo, org, name, version, package).0, folder) == Marker(c, folder)
  {
    var c' := WriteLatestVersion(c, repo, org, name, version, package).0;
    assert Lookup(c'.markers, folder) == Lookup(c.markers, folder);
  }

  /** With slash-free names, distinct packages have distinct folders, so the
      frame of a write is exactly the other packages. */
  lemma {:induction false} FolderInjective(r1: string, o1: string, n1: string, r2: string, o2: string, n2: string)
    requires '/' !in r1 && '/' !in o1 && '/' !in n1
    requires '/' !in r2 && '/' !in o2 && '/' !in n2
    requires PackageFolder(r1, o1, n1) == PackageFolder(r2, o2, n2)
    ensures r1 == r2 && o1 == o2 && n1 == n2
  {
    FolderPieces(r1, o1, n1);
    FolderPieces(r2, o2, n2);
  }

  lemma FolderText(repo: string, org: string, name: string)
    ensures PackageFolder(repo, org, name) == "cache" + ['/'] + (repo + ['/'] + (org + ['/'] + name))
  {
  }

  lemma {:induction false} FolderPieces(repo: string, org: string, name: string)
    requires '/' !in repo && '/' !in org && '/' !in name
    ensures Split(PackageFolder(repo, org, name), '/') == ["cache", repo, org, name]
  {
    FolderText(repo, org, name);
    SplitCons(org, name, '/');
    SplitCons(repo, org + ['/'] + name, '/');
    SplitCons("cache", repo + ['/'] + (org + ['/'] + name), '/');
  }

  /** A snapshot path splits on `/` into `cache`, the three names and
      `{version}.json`. */
  lemma {:induction false} SnapshotPathPieces(repo: string, org: string, name: string, version: string)
    requires '/' !in repo && '/' !in org && '/' !in name && '/' !in version
    ensures Split(SnapshotPath(repo, org, name, version), '/') == ["cache", repo, org, name, version + ".json"]
  {
    var folder := PackageFolder(repo, org, name);
    FolderPieces(repo, org, name);
    assert '/' !in version + ".json";
    SplitConcat(folder, version + ".json", '/');
    assert SnapshotPath(repo, org, name, version) == folder + ['/'] + (version + ".json");
  }

  /** Writing a sequence of versions of one package, in order. */
  function WriteAll(c: CacheState, repo: string, org: string, name: string,
                    versions: seq<string>, package: Manifest): CacheState
    decreases |versions|
  {
    if |versions| == 0 then c
    else WriteAll(WriteLatestVersion(c, repo, org, name, versions[0], package).0,
                  repo, org, name, versions[1..], package)
  }

  /** The snapshot path of each version in turn. */
  function SnapshotPaths(repo: string, org: string, name: string, versions: seq<string>): (r: seq<string>)
    ensures |r| == |versions|
    ensures forall i :: 0 <= i < |versions| ==> r[i] == SnapshotPath(repo, org, name, versions[i])
    decreases |versions|
  {
    if |versions| == 0 then [] else [SnapshotPath(repo, org, name, versions[0])] + SnapshotPaths(repo, org, name, versions[1..])
  }

  /** One write adds exactly one line to the package's history and one to
      the change log, and keeps both files line-terminated. */
  lemma WriteAddsOneLine(c: CacheState, repo: string, org: string, name: string,
                         version: string, package: Manifest)
    requires '\n' !in repo + org + name + version
    requires Terminated(History(c, PackageFolder(repo, org, name)))
    requires Terminated(c.log.GetOr(""))
    ensures var c' := WriteLatestVersion(c, repo, org, name, version, package).0;
      var folder := PackageFolder(repo, org, name);
      && ReadLines(History(c', folder)) == ReadLines(History(c, folder)) + [version]
      && Terminated(History(c', folder))
      && ReadLines(c'.log.GetOr("")) == ReadLines(c.log.GetOr("")) + [SnapshotPath(repo, org, name, version)]
      && Terminated(c'.log.GetOr(""))
  {
    SnapshotPathLine(repo, org, name, version);
    AppendLine(History(c, PackageFolder(repo, org, name)), version);
    AppendLine(c.log.GetOr(""), SnapshotPath(repo, org, name, version));
  }

  /** After writing N versions of a package one after another, its history
      holds exactly those N versions after its earlier ones, in call order. */
  lemma {:induction false} WriteAllHistory(c: CacheState, repo: string, org: string, name: string,
                                           versions: seq<string>, package: Manifest)
    requires '\n' !in repo + org + name
    requires NoNewlines(versions)
    requires Terminated(History(c, PackageFolder(repo, org, name)))
    requires Terminated(c.log.GetOr(""))
    ensures ReadLines(History(WriteAll(c, repo, org, name, versions, package), PackageFolder(repo, org, name)))
         == ReadLines(History(c, PackageFolder(repo, org, name))) + versions
    decreases |versions|
  {
    if |versions| > 0 {
      var v := versions[0];
      var c1 := WriteLatestVersion(c, repo, org, name, v, package).0;
      assert '\n' !in repo + org + name + v;
      WriteAddsOneLine(c, repo, org, name, v, package);
      assert NoNewlines(versions[1..]);
      WriteAllHistory(c1, repo, org, name, versions[1..], package);
      var h0 := ReadLines(History(c, PackageFolder(repo, org, name)));
      ConsAfterSnoc(h0, v, versions[1..]);
      assert [v] + versions[1..] == versions;
    }
  }

  /** After writing N versions of a package one after another, the change log
      holds exactly N new lines after its earlier ones: their snapshot paths,
      in call order. */
  lemma {:induction false} WriteAllLog(c: CacheState, repo: string, org: string, name: string,
                                       versions: seq<string>, package: Manifest)
    requires '\n' !in repo + org + name
    requires NoNewlines(versions)
    requires Terminated(History(c, PackageFolder(repo, org, name)))
    requires Terminated(c.log.GetOr(""))
    ensures ReadLines(WriteAll(c, repo, org, name, versions, package).log.GetOr(""))
         == ReadLines(c.log.GetOr("")) + SnapshotPaths(repo, org, name, versions)
    decreases |versions|
  {
    if |versions| > 0 {
      var v := versions[0];
      var c1 := WriteLatestVersion(c, repo, org, name, v, package).0;
      assert '\n' !in repo + org + name + v;
      WriteAddsOneLine(c, repo, org, name, v, package);
      assert NoNewlines(versions[1..]);
      WriteAllLog(c1, repo, org, name, versions[1..], package);
      ConsAfterSnoc(ReadLines(c.log.GetOr("")), SnapshotPath(repo, org, name, v),
                    SnapshotPaths(repo, org, name, versions[1..]));
    }
  }

  /** After writing N > 0 versions of a package, its marker reads as the last. */
  lemma {:induction false} WriteAllMarker(c: CacheState, repo: string, org: string, name: string,
                                          versions: seq<string>, package: Manifest)
    requires |versions| > 0
    ensures ReadLatestVersion(WriteAll(c, repo, org, name, versions, package), repo, org, name)
         == Some(Strip(versions[|versions| - 1]))
    decreases |versions|
  {
    var c1 := WriteLatestVersion(c, repo, org, name, versions[0], package).0;
    if |versions| > 1 {
      WriteAllMarker(c1, repo, org, name, versions[1..], package);
      LastOfTail(versions);
    }
  }
}
