/** The user's configuration: project sources (remote files of projects),
    projects by name (shortcuts to shortlinks), and vendor settings. The
    YAML (de)serialisation, the network download of sources and the
    environment variables naming the files are not modelled. */
module Configuration {
  import opened Wrappers
  import opened Strings
  import opened SortedMaps
  import opened Data
  import opened Files
  import Templates
  import Actions

  /** Whether a project was written by the user or came from a source. */
  datatype ProjectSourceKind = LocalKind | External

  datatype Project = Project(
    shortlink: string,
    isGit: Option<bool>,
    description: Option<string>,
    source: ProjectSourceKind,
    mode: Option<CopyMode>,
    actions: Option<seq<Actions.Action>>,
    swaps: Option<seq<Templates.Swap>>)

  /** A remote file of projects, saved locally under `FileName()`. */
  datatype ProjectSource = ProjectSource(name: string, link: string)
  {
    function FileName(): (r: string)
      ensures EndsWith(r, ".yaml") && StartsWith(r, name) && |r| == |name| + 5
    {
      name + ".yaml"
    }
  }

  /** A vendor of a given kind (`github`, `gitlab`, `bitbucket`) at a base
      address. */
  datatype CustomVendor = CustomVendor(kind: string, base: string)

  /** The vendor used when a shortlink names none, and vendors by prefix. */
  datatype VendorsConfig = VendorsConfig(
    vendorsDefault: Option<CustomVendor>,
    custom: Option<map<string, CustomVendor>>)

  /** The actions and swaps a project tree declares for itself. */
  datatype ProjectSetupActions = ProjectSetupActions(
    actions: Option<seq<Actions.Action>>,
    swaps: Option<seq<Templates.Swap>>)

  /** Which configuration files were found. */
  datatype LoadSource = Default | Local | Global | Merged

  /** The projects a remote source file offered, if it was downloaded. */
  type RemoteProjects = seq<(string, Option<Entries<Project>>)>

  /** Whether a project is offered in a mode: every project is when all
      modes are asked for; otherwise one without a mode, one for all modes
      and one for exactly that mode. */
  predicate Selected(p: Project, mode: CopyMode) {
    mode == All || p.mode.None? || p.mode.value == All || p.mode.value == mode
  }

  /** `projects_for_selection`: the selected projects, in key order. */
  function Selection(projects: Option<Entries<Project>>, mode: CopyMode): (r: Entries<Project>)
    ensures projects.None? ==> r == []
  {
    if projects.None? then [] else Filter(projects.value, mode)
  }

  function Filter(ps: Entries<Project>, mode: CopyMode): (r: Entries<Project>)
    ensures |r| <= |ps|
  {
    if ps == [] then []
    else if Selected(ps[0].1, mode) then [ps[0]] + Filter(ps[1..], mode)
    else Filter(ps[1..], mode)
  }

  /** An entry is selected iff it is a project of the map offered in the
      mode. */
  lemma {:induction false} FilterMembers(ps: Entries<Project>, mode: CopyMode, e: (string, Project))
    ensures e in Filter(ps, mode) <==> e in ps && Selected(e.1, mode)
  {
    if ps != [] {
      FilterMembers(ps[1..], mode, e);
      assert ps == [ps[0]] + ps[1..];
    }
  }

  /** An entry is selected iff the map holds it and it is offered in the
      mode; without a map nothing is. */
  lemma SelectionMembers(projects: Option<Entries<Project>>, mode: CopyMode)
    ensures forall e :: e in Selection(projects, mode) <==>
      projects.Some? && e in projects.value && Selected(e.1, mode)
  {
    if projects.Some? {
      forall e
        ensures e in Selection(projects, mode) <==> e in projects.value && Selected(e.1, mode)
      {
        FilterMembers(projects.value, mode, e);
      }
    }
  }

  /** The selection keeps the map's order: it is a subsequence. */
  lemma {:induction false} FilterKeepsOrder(ps: Entries<Project>, mode: CopyMode)
    requires Sorted(ps)
    ensures Sorted(Filter(ps, mode))
  {
    if ps != [] {
      SortedTail(ps);
      FilterKeepsOrder(ps[1..], mode);
      var rest := Filter(ps[1..], mode);
      if Selected(ps[0].1, mode) {
        forall j | 0 <= j < |rest|
          ensures StrLt(ps[0].0, rest[j].0)
        {
          FilterMembers(ps[1..], mode, rest[j]);
          var i :| 0 <= i < |ps[1..]| && ps[1..][i] == rest[j];
          assert rest[j].0 in Keys(ps[1..]);
        }
      }
    }
  }

  /** Asking for all modes offers every project. */
  lemma {:induction false} SelectAllIsEverything(ps: Entries<Project>)
    ensures Selection(Some(ps), All) == ps
  {
    if ps != [] {
      SelectAllIsEverything(ps[1..]);
      assert ps == [ps[0]] + ps[1..];
    }
  }

  /** Asking for copying offers the projects without a mode, the ones for
      all modes and the ones for copying, and never one for applying only. */
  lemma ApplyOnlyNotCopied(ps: Entries<Project>, e: (string, Project))
    requires e.1.mode == Some(Apply)
    ensures e !in Selection(Some(ps), Copy)
  {
    FilterMembers(ps, Copy, e);
  }

  /** Stores `v` under `k` unless `k` already has a value. */
  function AddIfAbsent(ps: Entries<Project>, k: string, v: Project): (r: Entries<Project>)
    ensures Get(ps, k).Some? ==> r == ps
  {
    if Get(ps, k).None? then Insert(ps, k, v) else ps
  }

  /** One source's projects added, in its key order, without overwriting. */
  function AddMissing(ps: Entries<Project>, m: Entries<Project>): Entries<Project>
    decreases |m|
  {
    if m == [] then ps else AddMissing(AddIfAbsent(ps, m[0].0, m[0].1), m[1..])
  }

  /** Every downloaded source's projects added, source by source. */
  function MergeRemote(ps: Entries<Project>, remote: RemoteProjects): Entries<Project>
    decreases |remote|
  {
    if remote == [] then ps
    else
      var next := match remote[0].1 case None => ps case Some(m) => AddMissing(ps, m);
      MergeRemote(next, remote[1..])
  }

  /** The project the earliest source supplying `k` offers under it. */
  function Provided(remote: RemoteProjects, k: string): Option<Project>
  {
    if remote == [] then None
    else if remote[0].1.Some? && Get(remote[0].1.value, k).Some? then Get(remote[0].1.value, k)
    else Provided(remote[1..], k)
  }

  lemma {:induction false} AddMissingGet(ps: Entries<Project>, m: Entries<Project>, k: string)
    ensures Get(AddMissing(ps, m), k) == if Get(ps, k).Some? then Get(ps, k) else Get(m, k)
    decreases |m|
  {
    if m != [] {
      var next := AddIfAbsent(ps, m[0].0, m[0].1);
      AddMissingGet(next, m[1..], k);
      if Get(ps, m[0].0).None? {
        InsertFacts(ps, m[0].0, m[0].1);
      }
    }
  }

  /** Remote projects never replace a project already known, and each
      other name gets the project of the earliest source that offers it. */
  lemma {:induction false} MergeRemoteGet(ps: Entries<Project>, remote: RemoteProjects, k: string)
    ensures Get(MergeRemote(ps, remote), k) == if Get(ps, k).Some? then Get(ps, k) else Provided(remote, k)
    decreases |remote|
  {
    if remote != [] {
      var next := match remote[0].1 case None => ps case Some(m) => AddMissing(ps, m);
      MergeRemoteGet(next, remote[1..], k);
      if remote[0].1.Some? {
        AddMissingGet(ps, remote[0].1.value, k);
      }
    }
  }

  /** The merged projects stay in ascending name order. */
  lemma {:induction false} AddMissingSorted(ps: Entries<Project>, m: Entries<Project>)
    requires Sorted(ps)
    ensures Sorted(AddMissing(ps, m))
    decreases |m|
  {
    if m != [] {
      if Get(ps, m[0].0).None? {
        InsertSorted(ps, m[0].0, m[0].1);
      }
      AddMissingSorted(AddIfAbsent(ps, m[0].0, m[0].1), m[1..]);
    }
  }

  lemma {:induction false} MergeRemoteSorted(ps: Entries<Project>, remote: RemoteProjects)
    requires Sorted(ps)
    ensures Sorted(MergeRemote(ps, remote))
    decreases |remote|
  {
    if remote != [] {
      if remote[0].1.Some? {
        AddMissingSorted(ps, remote[0].1.value);
      }
      var next := match remote[0].1 case None => ps case Some(m) => AddMissing(ps, m);
      MergeRemoteSorted(next, remote[1..]);
    }
  }

  /** A local project survives any remote source that offers the same
      name. */
  lemma RemoteCannotOverwrite(ps: Entries<Project>, remote: RemoteProjects, k: string, p: Project)
    requires Get(ps, k) == Some(p)
    ensures Get(MergeRemote(ps, remote), k) == Some(p)
  {
    MergeRemoteGet(ps, remote, k);
  }

  /** `load_or_default`: which files exist decides where the configuration
      comes from. Both files give the global one merged with the local one
      on top, the global one read first. */
  function LoadOrDefault<C>(localExists: bool, globalExists: bool, loadLocal: Result<C>,
                            loadGlobal: Result<C>, merge: (C, C) -> Result<C>, default: C)
    : (r: Result<(C, LoadSource)>)
    ensures r.Ok? ==> (r.value.1 == Local <==> localExists && !globalExists)
    ensures r.Ok? ==> (r.value.1 == Global <==> !localExists && globalExists)
    ensures r.Ok? ==> (r.value.1 == Merged <==> localExists && globalExists)
    ensures r.Ok? ==> (r.value.1 == Default <==> !localExists && !globalExists)
    ensures !localExists && !globalExists ==> r == Ok((default, Default))
    ensures localExists && !globalExists && loadLocal.Ok? ==> r == Ok((loadLocal.value, Local))
    ensures localExists && !globalExists && loadLocal.Err? ==> r == Err(loadLocal.msg)
    ensures !localExists && globalExists && loadGlobal.Ok? ==> r == Ok((loadGlobal.value, Global))
    ensures !localExists && globalExists && loadGlobal.Err? ==> r == Err(loadGlobal.msg)
    ensures localExists && globalExists && loadGlobal.Ok? && loadLocal.Err? ==> r == Err(loadLocal.msg)
    ensures localExists && globalExists && loadGlobal.Ok? && loadLocal.Ok? ==>
      var m := merge(loadGlobal.value, loadLocal.value);
      (m.Ok? ==> r == Ok((m.value, Merged))) && (m.Err? ==> r == Err(m.msg))
    ensures localExists && globalExists && loadGlobal.Err? ==> r == Err(loadGlobal.msg)
    ensures localExists && globalExists && loadGlobal.Ok? && loadLocal.Ok? ==>
      (r.Ok? <==> merge(loadGlobal.value, loadLocal.value).Ok?)
  {
    if localExists && !globalExists then
      var c :- loadLocal; Ok((c, Local))
    else if !localExists && globalExists then
      var g :- loadGlobal; Ok((g, Global))
    else if localExists && globalExists then
      var g :- loadGlobal;
      var c :- loadLocal;
      var m :- merge(g, c);
      Ok((m, Merged))
    else Ok((default, Default))
  }

  function AlreadyExists(path: string): string {
    "configuration file already exists: " + path
  }

  /** `init_to`: writes the starter configuration unless the file exists;
      gives the outcome and the files afterwards. */
  function InitTo(files: map<string, string>, path: string, template: string)
    : (r: (Result<()>, map<string, string>))
    ensures path in files ==> r == (Err(AlreadyExists(path)), files)
    ensures path !in files ==> r.0.Ok? && r.1 == files[path := template]
  {
    if path in files then (Err(AlreadyExists(path)), files)
    else (Ok(()), files[path := template])
  }

  /** An existing configuration file is never overwritten by `init_to`. */
  lemma InitNeverOverwrites(files: map<string, string>, path: string, template: string, p: string)
    requires p in files
    ensures p in InitTo(files, path, template).1
    ensures InitTo(files, path, template).1[p] == files[p]
  {
  }

  method InitFile(fs: FileSystem, path: string, template: string) returns (r: Result<()>)
    modifies fs
    ensures (r, fs.files) == InitTo(old(fs.files), path, template)
  {
    if fs.Exists(path) {
      return Err(AlreadyExists(path));
    }
    fs.Write(path, template);
    return Ok(());
  }

  class Config {
    var projectSources: Option<seq<ProjectSource>>
    var projects: Option<Entries<Project>>
    var vendors: Option<VendorsConfig>

    /** The projects are kept in ascending name order, as a `BTreeMap`
        keeps its keys. */
    predicate Valid()
      reads this
    {
      projects.Some? ==> Sorted(projects.value)
    }

    constructor (projectSources: Option<seq<ProjectSource>>, projects: Option<Entries<Project>>,
                 vendors: Option<VendorsConfig>)
      requires projects.Some? ==> Sorted(projects.value)
      ensures Valid()
      ensures this.projectSources == projectSources
      ensures this.projects == projects && this.vendors == vendors
    {
      this.projectSources := projectSources;
      this.projects := projects;
      this.vendors := vendors;
    }

    /** `project`: the project stored under a name. */
    function ProjectNamed(shortlink: string): (r: Option<Project>)
      reads this
      ensures projects.None? ==> r.None?
      ensures r.Some? <==> projects.Some? && shortlink in Keys(projects.value)
      ensures r.Some? ==> (shortlink, r.value) in projects.value
    {
      if projects.None? then None else Get(projects.value, shortlink)
    }

    /** `projects_for_selection`. */
    function ProjectsForSelection(mode: CopyMode): (r: Entries<Project>)
      reads this
      ensures forall e :: e in r <==> projects.Some? && e in projects.value && Selected(e.1, mode)
    {
      SelectionMembers(projects, mode);
      Selection(projects, mode)
    }

    /** `add_project_source`: appends one source, creating the list. */
    method AddProjectSource(name: string, link: string)
      requires Valid()
      modifies this
      ensures Valid()
      ensures projectSources == Some(old(projectSources).GetOr([]) + [ProjectSource(name, link)])
      ensures projects == old(projects) && vendors == old(vendors)
    {
      projectSources := Some(projectSources.GetOr([]) + [ProjectSource(name, link)]);
    }

    /** `add_remote_projects`: adds the projects of every downloaded source
        that are not known yet; afterwards there is always a project map. */
    method AddRemoteProjects(remote: RemoteProjects)
      requires Valid()
      modifies this
      ensures Valid()
      ensures projects == Some(MergeRemote(old(projects).GetOr([]), remote))
      ensures projectSources == old(projectSources) && vendors == old(vendors)
    {
      var merged := projects.GetOr([]);
      ghost var start := merged;
      for i := 0 to |remote|
        invariant MergeRemote(merged, remote[i..]) == MergeRemote(start, remote)
      {
        assert remote[i..][1..] == remote[i + 1..];
        if remote[i].1.Some? {
          var pmap := remote[i].1.value;
          ghost var before := merged;
          for j := 0 to |pmap|
            invariant AddMissing(merged, pmap[j..]) == AddMissing(before, pmap)
          {
            assert pmap[j..][1..] == pmap[j + 1..];
            if Get(merged, pmap[j].0).None? {
              merged := Insert(merged, pmap[j].0, pmap[j].1);
            }
          }
        }
      }
      MergeRemoteSorted(start, remote);
      projects := Some(merged);
    }
  }
}
