/** Git hosting vendors: a prefix or domain names a vendor (GitHub, GitLab,
    Bitbucket) at a base address, and a vendor turns a location into the
    address of a tarball of a ref and an ssh clone address. */
module Vendors {
  import opened Wrappers
  import opened Strings
  import opened Data
  import opened Git
  import opened Configuration

  datatype VendorKind = Github | Gitlab | BitBucket

  datatype Vendor = Vendor(kind: VendorKind, base: string)

  /** Finds the ref a location names, or its default branch: the git
      provider's `get_ref_or_default`, of which `Git.GetRefOrDefault` is
      the real one. */
  type RefSource = Location -> Result<RemoteInfo>

  const GITHUB_BASE: string := "github.com"
  const GITLAB_BASE: string := "gitlab.com"
  const BITBUCKET_BASE: string := "bitbucket.org"

  function DefaultBase(kind: VendorKind): string {
    match kind
    case Github => GITHUB_BASE
    case Gitlab => GITLAB_BASE
    case BitBucket => BITBUCKET_BASE
  }

  function NoVendor(token: string): string {
    "no vendor found for: " + token
  }

  /** The vendor kind a token names, if any. */
  function KindOf(token: string): Option<VendorKind> {
    if token == "gh" || token == "github.com" || token == "github" then Some(Github)
    else if token == "gl" || token == "gitlab.com" || token == "gitlab" then Some(Gitlab)
    else if token == "bb" || token == "bitbucket.org" || token == "bitbucket" then Some(BitBucket)
    else None
  }

  /** `lookup_table`: a known token gives its vendor at the given base, or
      at the vendor's own address when none is given. */
  function LookupTable(token: string, base: Option<string>): (r: Result<Vendor>)
    ensures r.Ok? <==> KindOf(token).Some?
    ensures r.Err? ==> r.msg == NoVendor(token)
    ensures r.Ok? ==> r.value.kind == KindOf(token).value
    ensures r.Ok? ==> r.value.base == base.GetOr(DefaultBase(r.value.kind))
  {
    match KindOf(token)
    case Some(kind) => Ok(Vendor(kind, base.GetOr(DefaultBase(kind))))
    case None => Err(NoVendor(token))
  }

  /** The configured vendor for a token: for the empty token the configured
      default vendor, else GitHub; for another token its custom entry. */
  function Configured(vendors: Option<VendorsConfig>, token: string): (r: Option<CustomVendor>)
    ensures token == "" && vendors.Some? && vendors.value.vendorsDefault.Some? ==>
      r == vendors.value.vendorsDefault
    ensures token == "" && !(vendors.Some? && vendors.value.vendorsDefault.Some?) ==>
      r == Some(CustomVendor("github", GITHUB_BASE))
    ensures token != "" ==>
      (r.Some? <==> vendors.Some? && vendors.value.custom.Some? && token in vendors.value.custom.value)
    ensures token != "" && r.Some? ==> r.value == vendors.value.custom.value[token]
  {
    if token == "" then
      if vendors.Some? && vendors.value.vendorsDefault.Some? then vendors.value.vendorsDefault
      else Some(CustomVendor("github", GITHUB_BASE))
    else if vendors.Some? && vendors.value.custom.Some? && token in vendors.value.custom.value then
      Some(vendors.value.custom.value[token])
    else None
  }

  /** `Vendors::lookup`: a configured vendor is looked up by its kind at its
      base; a token without one is looked up itself. */
  function Lookup(vendors: Option<VendorsConfig>, token: string): (r: Result<Vendor>)
    ensures Configured(vendors, token).Some? ==>
      var c := Configured(vendors, token).value;
      (r.Ok? <==> KindOf(c.kind).Some?) &&
      (r.Ok? ==> r.value == Vendor(KindOf(c.kind).value, c.base)) &&
      (r.Err? ==> r.msg == NoVendor(c.kind))
    ensures Configured(vendors, token).None? ==>
      (r.Ok? <==> KindOf(token).Some?) &&
      (r.Ok? ==> r.value == Vendor(KindOf(token).value, DefaultBase(KindOf(token).value))) &&
      (r.Err? ==> r.msg == NoVendor(token))
  {
    match Configured(vendors, token)
    case None => LookupTable(token, None)
    case Some(c) => LookupTable(c.kind, Some(c.base))
  }

  /** Without configuration the default vendor is GitHub at `github.com`. */
  lemma DefaultIsGithub(vendors: Option<VendorsConfig>)
    requires vendors.None? || vendors.value.vendorsDefault.None?
    ensures Lookup(vendors, "") == Ok(Vendor(Github, GITHUB_BASE))
  {
  }

  /** A custom entry for a prefix overrides the built-in meaning of the
      prefix, as `gh` pointing at an organisation. */
  lemma CustomOverridesTable(vendors: Option<VendorsConfig>, token: string, c: CustomVendor)
    requires token != "" && vendors.Some? && vendors.value.custom.Some?
    requires token in vendors.value.custom.value && vendors.value.custom.value[token] == c
    requires KindOf(c.kind).Some?
    ensures Lookup(vendors, token) == Ok(Vendor(KindOf(c.kind).value, c.base))
  {
  }

  /** An unknown prefix without a custom entry fails. */
  lemma UnknownPrefixFails(vendors: Option<VendorsConfig>)
    requires vendors.None? || vendors.value.custom.None? || "notfound" !in vendors.value.custom.value
    ensures Lookup(vendors, "notfound") == Err(NoVendor("notfound"))
  {
  }

  /** The ssh clone address a vendor gives for a repository path. */
  function GitAddress(base: string, path: string): string {
    "git@" + base + ":" + TrimStart(path, '/') + ".git"
  }

  /** The tarball address of a ref. GitLab names the file after the project
      and the ref with every `/` turned into `-`. */
  function ArchiveUrl(v: Vendor, loc: Location, gref: string): string {
    match v.kind
    case Github => "https://" + v.base + loc.path + "/archive/" + gref + ".tar.gz"
    case BitBucket => "https://" + v.base + loc.path + "/get/" + gref + ".tar.gz"
    case Gitlab =>
      "https://" + v.base + loc.path + "/-/archive/" + gref + "/" + loc.project + "-"
      + Replace(gref, "/", "-") + ".tar.gz"
  }

  /** `resolve`: the location is kept, and the assets are the tarball of
      the ref (its first folder is the project) and the clone address. */
  function Resolve(v: Vendor, loc: Location, getRef: RefSource): (r: Result<(Location, Assets)>)
    ensures getRef(loc).Err? ==> r == Err(getRef(loc).msg)
    ensures getRef(loc).Ok? ==> r.Ok? && r.value.0 == loc
    ensures r.Ok? ==> r.value.1.archive.Some? && r.value.1.archive.value.root == FirstFolder
    ensures r.Ok? ==> r.value.1.git == Some(GitAddress(v.base, loc.path))
    ensures r.Ok? ==> r.value.1.archive.value.url == ArchiveUrl(v, loc, getRef(loc).value.ref_)
    ensures r.Ok? ==> StartsWith(r.value.1.archive.value.url, "https://" + v.base + loc.path)
    ensures r.Ok? ==> EndsWith(r.value.1.archive.value.url, ".tar.gz")
  {
    var info :- getRef(loc);
    var url := ArchiveUrl(v, loc, info.ref_);
    assert StartsWith(url, "https://" + v.base + loc.path);
    Ok((loc, Assets(Some(Archive(url, FirstFolder)), Some(GitAddress(v.base, loc.path)))))
  }

  /** The clone address a vendor gives is the location's own ssh address
      when the vendor's base is the location's domain. */
  lemma CloneAddressIsLocations(v: Vendor, loc: Location, getRef: RefSource)
    requires v.base == loc.domain && getRef(loc).Ok?
    ensures Resolve(v, loc, getRef).value.1.git == Some(loc.GitUrl())
  {
  }

  /** GitLab's tarball file name holds the ref without any `/`. */
  lemma GitlabFileNameFlat(gref: string)
    ensures '/' !in Replace(gref, "/", "-")
  {
    ReplaceCharRemoves(gref, '/', "-");
  }
}
