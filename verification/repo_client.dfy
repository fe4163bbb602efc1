/** The repository client's pure half: deriving the manifest URL of a watched
    project (`make_url`). The HTTP GET itself is an input of the update
    checker. */
module RepoClient {
  import opened Base
  import opened Text

  /** The one supported host kind. */
  const GitHub: string := "github"

  const RawPrefix: string := "https://raw.github.com/"
  const ManifestFile: string := "package.json"

  /** `make_url`: the raw `package.json` URL of a project on the given branch,
      or `None` for a host kind other than `github`. */
  function MakeUrl(repo: string, org: string, name: string, branch: string): (r: Option<string>)
    ensures r.None? <==> repo != GitHub
    ensures r.Some? ==> |RawPrefix| <= |r.value| && r.value[..|RawPrefix|] == RawPrefix
  {
    if repo == GitHub then Some(RawPrefix + org + "/" + name + "/" + branch + "/" + ManifestFile)
    else None
  }

  /** The URL's pieces between slashes. */
  function UrlParts(org: string, name: string, branch: string): seq<string> {
    ["https:", "", "raw.github.com", org, name, branch, ManifestFile]
  }

  /** The part of the URL after the host. */
  lemma UrlTail(org: string, name: string, branch: string)
    ensures Join([org, name, branch, ManifestFile], '/') == org + "/" + name + "/" + branch + "/" + ManifestFile
  {
    JoinCons(branch, [ManifestFile], '/');
    assert [branch, ManifestFile] == [branch] + [ManifestFile];
    JoinCons(name, [branch, ManifestFile], '/');
    assert [name, branch, ManifestFile] == [name] + [branch, ManifestFile];
    JoinCons(org, [name, branch, ManifestFile], '/');
    assert [org, name, branch, ManifestFile] == [org] + [name, branch, ManifestFile];
  }

  /** The scheme, the empty piece and the host, joined before the rest. */
  lemma HostPrefix(tail: string)
    ensures "https:" + ['/'] + ("" + ['/'] + ("raw.github.com" + ['/'] + tail)) == RawPrefix + tail
  {
    var host := "raw.github.com" + ['/'];
    ConcatAssoc("" + ['/'], host, tail);
    ConcatAssoc("https:" + ['/'], "" + ['/'] + host, tail);
    assert "https:" + ['/'] + ("" + ['/'] + host) == RawPrefix;
  }

  lemma UrlText(org: string, name: string, branch: string)
    ensures MakeUrl(GitHub, org, name, branch).value == Join(UrlParts(org, name, branch), '/')
  {
    var rest := [org, name, branch, ManifestFile];
    var tail := org + "/" + name + "/" + branch + "/" + ManifestFile;
    UrlTail(org, name, branch);
    JoinCons("raw.github.com", rest, '/');
    JoinCons("", ["raw.github.com"] + rest, '/');
    JoinCons("https:", [""] + (["raw.github.com"] + rest), '/');
    assert UrlParts(org, name, branch) == ["https:"] + ([""] + (["raw.github.com"] + rest));
    HostPrefix(Join(rest, '/'));
    assert MakeUrl(GitHub, org, name, branch).value == RawPrefix + tail;
  }

  /** With slash-free names, the URL's `/`-separated pieces are the scheme, an
      empty piece, the raw host, then org, name and branch verbatim in that
      order, then `package.json`. */
  lemma {:induction false} UrlPieces(org: string, name: string, branch: string)
    requires '/' !in org && '/' !in name && '/' !in branch
    ensures Split(MakeUrl(GitHub, org, name, branch).value, '/') == UrlParts(org, name, branch)
  {
    UrlText(org, name, branch);
    var ps := UrlParts(org, name, branch);
    assert '/' !in ManifestFile && '/' !in "raw.github.com" && '/' !in "https:";
    assert forall i :: 0 <= i < |ps| ==> '/' !in ps[i];
    SplitJoin(ps, '/');
  }

  /** Distinct slash-free projects get distinct URLs: the URL determines the
      org, name and branch it was built from. */
  lemma UrlDeterminesProject(o1: string, n1: string, b1: string, o2: string, n2: string, b2: string)
    requires '/' !in o1 && '/' !in n1 && '/' !in b1
    requires '/' !in o2 && '/' !in n2 && '/' !in b2
    requires MakeUrl(GitHub, o1, n1, b1) == MakeUrl(GitHub, o2, n2, b2)
    ensures o1 == o2 && n1 == n2 && b1 == b2
  {
    UrlPieces(o1, n1, b1);
    UrlPieces(o2, n2, b2);
  }
}
