/** Fetching a project's tree: a git location is cloned into a fresh
    temporary folder (which the caller removes afterwards), any other is
    downloaded as a tarball through a cache and extracted. The clone, the
    temporary folder, the cache and the folder listing are given functions;
    the flag returned says whether the folder is temporary. */
module Fetch {
  import opened Wrappers
  import opened Strings
  import opened Data
  import opened Paths

  const NO_ARCHIVE: string := "no archive found"

  /** One day, in seconds. */
  const DAY: nat := 60 * 60 * 24

  /** Clones a location into a folder: the git provider's `shallow_clone`,
      of which `Git.ShallowClone` is the real one. */
  type Cloner = (Location, string) -> Result<()>

  /** Downloads and extracts an address, reusing a copy younger than the
      given number of seconds; gives the extracted folder. */
  type Cache = (string, nat) -> Result<string>

  /** How long a cached download stays fresh: not at all when the cache is
      bypassed, else a day. */
  function FreshnessLifetime(noCache: bool): (ttl: nat)
    ensures ttl == 0 <==> noCache
    ensures !noCache ==> ttl == 86400
  {
    if noCache then 0 else DAY
  }

  /** `fetch_git`: clone into a new temporary folder, which is returned
      marked as temporary. */
  function FetchGit(loc: Location, tempdir: Result<string>, clone: Cloner): (r: Result<(string, bool)>)
    ensures tempdir.Err? ==> r == Err(tempdir.msg)
    ensures tempdir.Ok? && clone(loc, tempdir.value).Err? ==> r == Err(clone(loc, tempdir.value).msg)
    ensures r.Ok? ==> r.value == (tempdir.value, true) && clone(loc, tempdir.value).Ok?
  {
    var out :- tempdir;
    var _ :- clone(loc, out);
    Ok((out, true))
  }

  /** `fetch_archive`: the extracted folder, or its named subfolder, or its
      first entry, as the archive's root says; never temporary. */
  function FetchArchive(archive: Archive, noCache: bool, cache: Cache, firstEntry: string -> Result<string>)
    : (r: Result<(string, bool)>)
    ensures var extracted := cache(archive.url, FreshnessLifetime(noCache));
      (extracted.Err? ==> r == Err(extracted.msg)) &&
      (extracted.Ok? && archive.root == NoRoot ==> r == Ok((extracted.value, false))) &&
      (extracted.Ok? && archive.root.Folder? ==>
         r == Ok((JoinPath(extracted.value, archive.root.name), false))) &&
      (extracted.Ok? && archive.root == FirstFolder ==>
         r == match firstEntry(extracted.value) case Ok(d) => Ok((d, false)) case Err(m) => Err(m))
    ensures r.Ok? ==> !r.value.1
  {
    var extracted :- cache(archive.url, FreshnessLifetime(noCache));
    var dir :- match archive.root
      case FirstFolder => firstEntry(extracted)
      case Folder(s) => Ok(JoinPath(extracted, s))
      case NoRoot => Ok(extracted);
    Ok((dir, false))
  }

  /** `Fetcher::fetch`: a git location is cloned; otherwise the vendor's
      tarball is fetched, and a vendor without one is an error. */
  function FetchSource(loc: Location, assets: Assets, noCache: bool, tempdir: Result<string>,
                       clone: Cloner, cache: Cache, firstEntry: string -> Result<string>)
    : (r: Result<(string, bool)>)
    ensures loc.isGit ==> r == FetchGit(loc, tempdir, clone)
    ensures !loc.isGit && assets.archive.None? ==> r == Err(NO_ARCHIVE)
    ensures !loc.isGit && assets.archive.Some? ==>
      r == FetchArchive(assets.archive.value, noCache, cache, firstEntry)
  {
    if loc.isGit then FetchGit(loc, tempdir, clone)
    else if assets.archive.None? then Err(NO_ARCHIVE)
    else FetchArchive(assets.archive.value, noCache, cache, firstEntry)
  }

  /** A fetched folder is temporary exactly when it was cloned. */
  lemma TemporaryIffGit(loc: Location, assets: Assets, noCache: bool, tempdir: Result<string>,
                        clone: Cloner, cache: Cache, firstEntry: string -> Result<string>)
    requires FetchSource(loc, assets, noCache, tempdir, clone, cache, firstEntry).Ok?
    ensures FetchSource(loc, assets, noCache, tempdir, clone, cache, firstEntry).value.1 == loc.isGit
  {
  }

  /** A named root folder lies inside the extracted folder. */
  lemma FolderRootInside(archive: Archive, noCache: bool, cache: Cache, firstEntry: string -> Result<string>)
    requires archive.root.Folder? && !StartsWith(archive.root.name, "/")
    requires cache(archive.url, FreshnessLifetime(noCache)).Ok?
    requires cache(archive.url, FreshnessLifetime(noCache)).value != ""
    ensures var r := FetchArchive(archive, noCache, cache, firstEntry);
      r.Ok? && StartsWith(r.value.0, cache(archive.url, FreshnessLifetime(noCache)).value)
  {
  }

  /** The cache is asked for a fresh copy exactly when it is bypassed: two
      fetches that differ only in the flag read the cache with different
      lifetimes, and the flag changes nothing else. */
  lemma CacheFlagOnlyChangesLifetime(archive: Archive, cache: Cache, firstEntry: string -> Result<string>)
    requires cache(archive.url, 0) == cache(archive.url, DAY)
    ensures FetchArchive(archive, true, cache, firstEntry) == FetchArchive(archive, false, cache, firstEntry)
  {
  }
}
