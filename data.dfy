/** The location of a project: a parsed URL reduced to the parts the
    program uses (repository path, subfolder, project name, ref), and the
    small enums that describe what to fetch and how to copy it. */
module Data {
  import opened Wrappers
  import opened Strings

  /** The separator between a repository path and a subfolder inside it. */
  const SUBFOLDER_SEP: string := "/-/"

  /** A URL as its parser hands it over: the serialised text and its
      components. The fragment is section 3.5 of RFC 3986. */
  datatype Url = Url(
    text: string,
    domain: Option<string>,
    path: string,
    port: Option<nat>,
    query: Option<string>,
    fragment: Option<string>,
    username: string,
    password: Option<string>)

  datatype Location = Location(
    url: string,
    domain: string,
    path: string,
    project: string,
    port: Option<nat>,
    query: Option<string>,
    subfolder: Option<string>,
    gref: Option<string>,
    username: string,
    password: Option<string>,
    isGit: bool)
  {
    /** The ssh clone address of the repository: `git@`, the domain, `:`,
        the path without its leading slashes, and `.git`. */
    function GitUrl(): (r: string)
      ensures StartsWith(r, "git@" + domain + ":") && EndsWith(r, ".git") && |domain| + 9 <= |r|
      ensures var p := r[|domain| + 5..|r| - 4];
        (p == [] || p[0] != '/') && EndsWith(path, p) && forall k :: 0 <= k < |path| - |p| ==> path[k] == '/'
    {
      var r := "git@" + domain + ":" + TrimStart(path, '/') + ".git";
      assert r[|domain| + 5..|r| - 4] == TrimStart(path, '/');
      r
    }

    /** The browser address of the repository: the domain and the path
        under `https://`. */
    function WebUrl(): (r: string)
      ensures StartsWith(r, "https://" + domain) && EndsWith(r, path)
      ensures |r| == |"https://"| + |domain| + |path|
    {
      "https://" + domain + path
    }
  }

  /** The repository path and subfolder: the URL path split on `/-/` when
      that yields exactly two pieces, otherwise the whole path. */
  function RepoAndSubfolder(urlPath: string): (string, Option<string>) {
    var parts := Split(urlPath, SUBFOLDER_SEP);
    if |parts| == 2 then (parts[0], Some(parts[1])) else (urlPath, None)
  }

  /** The last `/`-separated segment of a path. */
  function LastSegment(path: string): string {
    var segments := Split(path, "/");
    segments[|segments| - 1]
  }

  /** Builds a location from a parsed URL. The "cannot find project name"
      error cannot occur, since splitting yields at least one piece. */
  function From(url: Url, isGit: bool): (r: Result<Location>)
    ensures r.Ok?
    ensures r.value.url == url.text && r.value.isGit == isGit
    ensures r.value.domain == url.domain.GetOr("") && r.value.gref == url.fragment
    ensures r.value.port == url.port && r.value.query == url.query
    ensures r.value.username == url.username && r.value.password == url.password
    ensures r.value.subfolder.Some? <==> |Split(url.path, SUBFOLDER_SEP)| == 2
    ensures r.value.subfolder.None? ==> r.value.path == url.path
    ensures r.value.subfolder.Some? ==>
      r.value.path + SUBFOLDER_SEP + r.value.subfolder.value == url.path &&
      !Contains(r.value.path, SUBFOLDER_SEP) && !Contains(r.value.subfolder.value, SUBFOLDER_SEP)
    ensures '/' !in r.value.project
    ensures r.value.project == r.value.path || EndsWith(r.value.path, "/" + r.value.project)
  {
    var (path, subfolder) := RepoAndSubfolder(url.path);
    var segments := Split(path, "/");
    if |segments| == 0 then Err("cannot find project name")
    else
      var project := segments[|segments| - 1];
      SubfolderSplit(url.path);
      ProjectIsLastSegment(path);
      Ok(Location(url.text, url.domain.GetOr(""), path, project, url.port, url.query,
                  subfolder, url.fragment, url.username, url.password, isGit))
  }

  /** When the path splits into exactly two pieces they are the repository
      path and the subfolder, separated by `/-/`, and neither contains it. */
  lemma SubfolderSplit(urlPath: string)
    ensures var (path, sub) := RepoAndSubfolder(urlPath);
      (sub.None? ==> path == urlPath) &&
      (sub.Some? ==> path + SUBFOLDER_SEP + sub.value == urlPath &&
                     !Contains(path, SUBFOLDER_SEP) && !Contains(sub.value, SUBFOLDER_SEP))
  {
    var parts := Split(urlPath, SUBFOLDER_SEP);
    if |parts| == 2 {
      JoinSplit(urlPath, SUBFOLDER_SEP);
      JoinLast(parts, SUBFOLDER_SEP);
      assert parts[..1][1..] == [];
      SplitPartsFree(urlPath, SUBFOLDER_SEP);
    }
  }

  /** The project is the text after the last `/` of the path: it holds no
      `/`, and it is the whole path or follows a `/` at its end. */
  lemma ProjectIsLastSegment(path: string)
    ensures '/' !in LastSegment(path)
    ensures LastSegment(path) == path || EndsWith(path, "/" + LastSegment(path))
  {
    var segments := Split(path, "/");
    var last := segments[|segments| - 1];
    SplitPartsFree(path, "/");
    if '/' in last {
      CharContained(last, '/');
    }
    JoinSplit(path, "/");
    if |segments| >= 2 {
      JoinLast(segments, "/");
      var front := Join(segments[..|segments| - 1], "/");
      assert path == front + ("/" + last);
    } else {
      assert segments == [segments[0]];
    }
  }

  /** A path without `/-/` is kept whole and has no subfolder. */
  lemma NoSeparatorNoSubfolder(url: Url, isGit: bool)
    requires !Contains(url.path, SUBFOLDER_SEP)
    ensures From(url, isGit).value.path == url.path
    ensures From(url, isGit).value.subfolder.None?
  {
    SplitSingle(url.path, SUBFOLDER_SEP);
  }

  /** A path with `/-/` twice is kept whole: there is no subfolder. */
  lemma SeparatorTwiceNoSubfolder(url: Url, isGit: bool, i: nat, j: nat)
    requires i + |SUBFOLDER_SEP| <= j
    requires OccursAt(url.path, SUBFOLDER_SEP, i) && OccursAt(url.path, SUBFOLDER_SEP, j)
    ensures From(url, isGit).value.path == url.path
    ensures From(url, isGit).value.subfolder.None?
  {
    var sep := SUBFOLDER_SEP;
    var p := url.path;
    SplitTwo(p, sep);
    var k := Find(p, sep).value;
    assert k <= i;
    var rest := p[k + |sep|..];
    assert OccursAt(rest, sep, j - (k + |sep|)) by {
      assert rest[j - (k + |sep|)..j - (k + |sep|) + |sep|] == p[j..j + |sep|];
    }
  }

  /** Where the archive's project tree sits once it is extracted. */
  datatype ArchiveRoot =
    | Folder(name: string)  // a named folder inside the archive
    | FirstFolder           // the first entry of the archive
    | NoRoot                // the archive itself (`ArchiveRoot::None`)

  datatype Archive = Archive(url: string, root: ArchiveRoot)

  /** What a vendor offers for a location. */
  datatype Assets = Assets(archive: Option<Archive>, git: Option<string>)

  /** What to do when a destination file already exists. */
  datatype Overwrite =
    | Ask
    | Always
    | Never
    | Custom(decide: string -> bool)

  /** `new` copies a project, `apply` applies one onto an existing tree. */
  datatype CopyMode = Copy | Apply | All
}
