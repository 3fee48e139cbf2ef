/** Shortlinks: what a user types to name a project (`jondot/hygen`,
    `gl:group/repo`, `git@host:path`, a full `https://` address or a
    configured project name) expanded into a vendor and a location, then
    resolved into downloadable assets. URL parsing is a given function. */
module Shortlink {
  import opened Wrappers
  import opened Strings
  import opened SortedMaps
  import opened Data
  import opened Configuration
  import opened Vendors
  import Actions

  /** Parses a URL, as `Url::parse`. */
  type UrlParser = string -> Result<Url>

  const HTTPS: string := "https://"
  const GIT_AT: string := "git@"
  const DOMAIN_MISSING: string := "domain is missing"

  /** The first `:` at or after `j` that has text after it. */
  function ColonFrom(t: string, j: nat): (r: Option<nat>)
    decreases |t| - j
    ensures r.Some? ==> j <= r.value && r.value + 1 < |t| && t[r.value] == ':'
    ensures r.Some? ==> forall k :: j <= k < r.value ==> t[k] != ':'
    ensures r.None? ==> forall k :: j <= k && k + 1 < |t| ==> t[k] != ':'
  {
    if j + 1 >= |t| then None
    else if t[j] == ':' then Some(j)
    else ColonFrom(t, j + 1)
  }

  /** The pattern `^git@(.+?):(.+)$`: `git@`, a domain of at least one
      character ending at the earliest `:` that leaves a non-empty path,
      and the path; no newline anywhere. */
  function MatchGit(s: string): (r: Option<(string, string)>)
    ensures r.Some? <==>
      StartsWith(s, GIT_AT) && '\n' !in s && exists i :: 5 <= i < |s| - 1 && s[i] == ':'
    ensures r.Some? ==> s == GIT_AT + r.value.0 + ":" + r.value.1
    ensures r.Some? ==> r.value.0 != [] && r.value.1 != [] && ':' !in r.value.0[1..]
  {
    if StartsWith(s, GIT_AT) && '\n' !in s then
      var t := s[4..];
      match ColonFrom(t, 1)
      case Some(i) =>
        assert s[4 + i] == ':';
        assert s == GIT_AT + t[..i] + ":" + t[i + 1..];
        assert forall c :: c in t[..i][1..] ==> c != ':';
        Some((t[..i], t[i + 1..]))
      case None =>
        assert forall i :: 5 <= i < |s| - 1 ==> s[i] == t[i - 4];
        None
    else None
  }

  /** A character of `[A-Za-z0-9_-]`. */
  predicate WordChar(c: char) {
    ('a' <= c <= 'z') || ('A' <= c <= 'Z') || ('0' <= c <= '9') || c == '_' || c == '-'
  }

  /** The length of the run of word characters starting at `i`. */
  function WordRun(s: string, i: nat): (n: nat)
    requires i <= |s|
    decreases |s| - i
    ensures i + n <= |s|
    ensures forall k :: i <= k < i + n ==> WordChar(s[k])
    ensures i + n == |s| || !WordChar(s[i + n])
  {
    if i == |s| || !WordChar(s[i]) then 0 else 1 + WordRun(s, i + 1)
  }

  /** The pattern `^([A-Za-z0-9_-]+):(.+)$`: a non-empty prefix of word
      characters, `:`, and a non-empty rest without a newline. */
  function MatchPrefix(s: string): (r: Option<(string, string)>)
    ensures r.Some? ==> s == r.value.0 + ":" + r.value.1
    ensures r.Some? ==> r.value.0 != [] && r.value.1 != [] && '\n' !in r.value.1
    ensures r.Some? ==> forall k :: 0 <= k < |r.value.0| ==> WordChar(r.value.0[k])
  {
    var n := WordRun(s, 0);
    if n >= 1 && n + 1 < |s| && s[n] == ':' && '\n' !in s[n + 1..] then
      assert s == s[..n] + ":" + s[n + 1..];
      Some((s[..n], s[n + 1..]))
    else None
  }

  /** Every prefix, colon and rest of the right shape is recognised, and
      split exactly there. */
  lemma MatchPrefixComplete(a: string, b: string)
    requires a != [] && forall k :: 0 <= k < |a| ==> WordChar(a[k])
    requires b != [] && '\n' !in b
    ensures MatchPrefix(a + ":" + b) == Some((a, b))
  {
    var s := a + ":" + b;
    var n := WordRun(s, 0);
    assert forall k :: 0 <= k < |a| ==> s[k] == a[k];
    assert !WordChar(s[|a|]);
    assert n == |a|;
    assert s[n + 1..] == b;
    assert s[..n] == a;
  }

  /** The ssh address a location prints is read back as its domain and
      its path: `git@D:P` is recognised with domain `D`. */
  lemma GitAddressRoundTrip(d: string, p: string)
    requires d != [] && ':' !in d && '\n' !in d
    requires p != [] && '\n' !in p
    ensures MatchGit(GIT_AT + d + ":" + p) == Some((d, p))
  {
    var s := GIT_AT + d + ":" + p;
    assert s[4 + |d|] == ':';
    var r := MatchGit(s);
    assert r.Some?;
    var (d', p') := r.value;
    assert |d'| == |d|;
    assert d' == s[4..4 + |d|] == d;
  }

  /** A configured project name stands for its shortlink: the project's
      git flag (false when unset) replaces the caller's, and its actions
      come along. */
  function Alias(projects: Option<Entries<Project>>, shortlink: string, isGit: bool)
    : (r: (string, bool, Option<seq<Actions.Action>>))
    ensures projects.None? || Get(projects.value, shortlink).None? ==> r == (shortlink, isGit, None)
    ensures projects.Some? && Get(projects.value, shortlink).Some? ==>
      var p := Get(projects.value, shortlink).value;
      r == (p.shortlink, p.isGit.GetOr(false), p.actions)
  {
    if projects.None? then (shortlink, isGit, None)
    else match Get(projects.value, shortlink)
      case None => (shortlink, isGit, None)
      case Some(p) => (p.shortlink, p.isGit.GetOr(false), p.actions)
  }

  /** The vendor and URL of a link: a full address, then `git@domain:path`,
      then `prefix:path`, then a path at the default vendor; the first form
      that matches decides. */
  function Dispatch(link: string, vendors: Option<VendorsConfig>, parse: UrlParser)
    : (r: Result<(Vendor, Url)>)
    ensures StartsWith(link, HTTPS) ==>
      (parse(link).Err? ==> r == Err(parse(link).msg)) &&
      (parse(link).Ok? && parse(link).value.domain.None? ==> r == Err(DOMAIN_MISSING)) &&
      (parse(link).Ok? && parse(link).value.domain.Some? ==>
        var v := Lookup(vendors, parse(link).value.domain.value);
        (v.Err? ==> r == Err(v.msg)) && (v.Ok? ==> r == Ok((v.value, parse(link).value))))
    ensures !StartsWith(link, HTTPS) && MatchGit(link).Some? ==>
      var (domain, path) := MatchGit(link).value;
      var v := Lookup(vendors, domain);
      var u := parse("https://" + domain + "/" + path);
      (v.Err? ==> r == Err(v.msg)) && (v.Ok? && u.Err? ==> r == Err(u.msg)) &&
      (v.Ok? && u.Ok? ==> r == Ok((v.value, u.value)))
    ensures !StartsWith(link, HTTPS) && MatchGit(link).None? ==>
      var (key, path) := if MatchPrefix(link).Some? then MatchPrefix(link).value else ("", link);
      var v := Lookup(vendors, key);
      (v.Err? ==> r == Err(v.msg)) &&
      (v.Ok? ==>
        var u := parse("https://" + v.value.base + "/" + path);
        (u.Err? ==> r == Err(u.msg)) && (u.Ok? ==> r == Ok((v.value, u.value))))
  {
    if StartsWith(link, HTTPS) then
      var url :- parse(link);
      if url.domain.None? then Err(DOMAIN_MISSING)
      else
        var vendor :- Lookup(vendors, url.domain.value);
        Ok((vendor, url))
    else match MatchGit(link)
      case Some((domain, path)) =>
        var vendor :- Lookup(vendors, domain);
        var url :- parse("https://" + domain + "/" + path);
        Ok((vendor, url))
      case None =>
        match MatchPrefix(link)
        case Some((prefix, path)) =>
          var vendor :- Lookup(vendors, prefix);
          var url :- parse("https://" + vendor.base + "/" + path);
          Ok((vendor, url))
        case None =>
          var vendor :- Lookup(vendors, "");
          var url :- parse("https://" + vendor.base + "/" + link);
          Ok((vendor, url))
  }

  /** A location's ssh address is dispatched back to its own domain: the
      vendor is the one configured for the domain and the repository is
      read from the path, as an `https://` address. */
  lemma GitUrlDispatch(loc: Location, vendors: Option<VendorsConfig>, parse: UrlParser)
    requires loc.domain != [] && ':' !in loc.domain && '\n' !in loc.domain && '\n' !in loc.path
    ensures var path := TrimStart(loc.path, '/') + ".git";
      MatchGit(loc.GitUrl()) == Some((loc.domain, path)) &&
      var r := Dispatch(loc.GitUrl(), vendors, parse);
      (r.Ok? <==> Lookup(vendors, loc.domain).Ok? && parse("https://" + loc.domain + "/" + path).Ok?) &&
      (r.Ok? ==> r.value == (Lookup(vendors, loc.domain).value, parse("https://" + loc.domain + "/" + path).value))
  {
    GitUrlRead(loc);
    var s := loc.GitUrl();
    DispatchGit(s, loc.domain, TrimStart(loc.path, '/') + ".git", vendors, parse);
  }

  lemma DispatchGit(s: string, domain: string, path: string, vendors: Option<VendorsConfig>, parse: UrlParser)
    requires !StartsWith(s, HTTPS) && MatchGit(s) == Some((domain, path))
    ensures var r := Dispatch(s, vendors, parse);
      (r.Ok? <==> Lookup(vendors, domain).Ok? && parse("https://" + domain + "/" + path).Ok?) &&
      (r.Ok? ==> r.value == (Lookup(vendors, domain).value, parse("https://" + domain + "/" + path).value))
  {
  }

  lemma GitUrlRead(loc: Location)
    requires loc.domain != [] && ':' !in loc.domain && '\n' !in loc.domain && '\n' !in loc.path
    ensures MatchGit(loc.GitUrl()) == Some((loc.domain, TrimStart(loc.path, '/') + ".git"))
    ensures !StartsWith(loc.GitUrl(), HTTPS)
  {
    assert loc.GitUrl() == GIT_AT + loc.domain + ":" + (TrimStart(loc.path, '/') + ".git");
    GitAddressOf(loc.domain, loc.path);
  }

  lemma TrimmedLacks(raw: string)
    requires '\n' !in raw
    ensures '\n' !in TrimStart(raw, '/') + ".git"
  {
    var t := TrimStart(raw, '/');
    assert t == raw[|raw| - |t|..];
    assert '\n' !in t;
  }

  lemma GitAddressOf(d: string, raw: string)
    requires d != [] && ':' !in d && '\n' !in d && '\n' !in raw
    ensures var path := TrimStart(raw, '/') + ".git";
      MatchGit(GIT_AT + d + ":" + path) == Some((d, path)) && !StartsWith(GIT_AT + d + ":" + path, HTTPS)
  {
    TrimmedLacks(raw);
    var path := TrimStart(raw, '/') + ".git";
    var s := GIT_AT + d + ":" + path;
    GitAddressRoundTrip(d, path);
    assert HTTPS[0] == 'h';
    assert |HTTPS| <= |s| ==> s[..|HTTPS|][0] == 'g';
  }

  /** A location's browser address is a full address: it is parsed as it
      is, and its vendor is the one configured for the parsed domain. */
  lemma WebUrlDispatch(loc: Location, vendors: Option<VendorsConfig>, parse: UrlParser)
    ensures var r := Dispatch(loc.WebUrl(), vendors, parse);
      var u := parse(loc.WebUrl());
      (r.Ok? <==> u.Ok? && u.value.domain.Some? && Lookup(vendors, u.value.domain.value).Ok?) &&
      (r.Ok? ==> r.value.1 == u.value && r.value.0 == Lookup(vendors, u.value.domain.value).value)
  {
    assert StartsWith(loc.WebUrl(), HTTPS);
  }

  datatype Expanded = Expanded(vendor: Vendor, location: Location, actions: Option<seq<Actions.Action>>)

  /** `expand`: the alias, then the dispatch, then the location. */
  function Expand(shortlink: string, isGit: bool, projects: Option<Entries<Project>>,
                  vendors: Option<VendorsConfig>, parse: UrlParser): (r: Result<Expanded>)
    ensures var (link, git, actions) := Alias(projects, shortlink, isGit);
      match Dispatch(link, vendors, parse)
      case Err(e) => r == Err(e)
      case Ok((vendor, url)) => r == Ok(Expanded(vendor, From(url, git).value, actions))
  {
    var (link, git, actions) := Alias(projects, shortlink, isGit);
    var (vendor, url) :- Dispatch(link, vendors, parse);
    Ok(Expanded(vendor, From(url, git).value, actions))
  }

  /** `Shortlink::resolve`: the expansion, then the vendor's assets. */
  function Resolve(shortlink: string, isGit: bool, projects: Option<Entries<Project>>,
                   vendors: Option<VendorsConfig>, parse: UrlParser, getRef: RefSource)
    : (r: Result<(Location, Assets, Option<seq<Actions.Action>>)>)
    ensures Expand(shortlink, isGit, projects, vendors, parse).Err? ==>
      r == Err(Expand(shortlink, isGit, projects, vendors, parse).msg)
    ensures Expand(shortlink, isGit, projects, vendors, parse).Ok? ==>
      var e := Expand(shortlink, isGit, projects, vendors, parse).value;
      match Vendors.Resolve(e.vendor, e.location, getRef)
      case Err(m) => r == Err(m)
      case Ok((loc, assets)) => r == Ok((loc, assets, e.actions))
  {
    var e :- Expand(shortlink, isGit, projects, vendors, parse);
    var (loc, assets) :- Vendors.Resolve(e.vendor, e.location, getRef);
    Ok((loc, assets, e.actions))
  }

  /** A full address is parsed as is and its domain names the vendor. */
  lemma HttpsFirst(link: string, vendors: Option<VendorsConfig>, parse: UrlParser)
    requires StartsWith(link, HTTPS) && parse(link).Ok?
    ensures parse(link).value.domain.None? ==> Dispatch(link, vendors, parse) == Err(DOMAIN_MISSING)
    ensures parse(link).value.domain.Some? ==>
      var l := Lookup(vendors, parse(link).value.domain.value);
      (l.Err? ==> Dispatch(link, vendors, parse) == Err(l.msg)) &&
      (l.Ok? ==> Dispatch(link, vendors, parse) == Ok((l.value, parse(link).value)))
  {
  }

  /** `git@D:P` names vendor `D` and the address `https://D/P`. */
  lemma GitAtLink(d: string, p: string, vendors: Option<VendorsConfig>, parse: UrlParser)
    requires d != [] && ':' !in d && '\n' !in d
    requires p != [] && '\n' !in p
    requires Lookup(vendors, d).Ok?
    ensures Dispatch(GIT_AT + d + ":" + p, vendors, parse) ==
      match parse("https://" + d + "/" + p)
      case Err(m) => Err(m)
      case Ok(url) => Ok((Lookup(vendors, d).value, url))
  {
    var link := GIT_AT + d + ":" + p;
    GitAddressRoundTrip(d, p);
    GitAtIsNotHttps(link);
    DispatchGitAt(link, d, p, vendors, parse);
  }

  lemma DispatchGitAt(link: string, d: string, p: string, vendors: Option<VendorsConfig>, parse: UrlParser)
    requires !StartsWith(link, HTTPS) && MatchGit(link) == Some((d, p)) && Lookup(vendors, d).Ok?
    ensures Dispatch(link, vendors, parse) ==
      match parse("https://" + d + "/" + p)
      case Err(m) => Err(m)
      case Ok(url) => Ok((Lookup(vendors, d).value, url))
  {
  }

  lemma GitAtIsNotHttps(link: string)
    requires StartsWith(link, GIT_AT)
    ensures !StartsWith(link, HTTPS)
  {
    assert link[1] == 'i' != HTTPS[1];
  }

  /** `prefix:P` names the prefix's vendor and the address
      `https://<its base>/P`. */
  lemma PrefixLink(a: string, p: string, vendors: Option<VendorsConfig>, parse: UrlParser)
    requires a != [] && forall k :: 0 <= k < |a| ==> WordChar(a[k])
    requires p != [] && '\n' !in p
    requires !StartsWith(a + ":" + p, HTTPS)
    requires Lookup(vendors, a).Ok?
    ensures Dispatch(a + ":" + p, vendors, parse) ==
      match parse("https://" + Lookup(vendors, a).value.base + "/" + p)
      case Err(m) => Err(m)
      case Ok(url) => Ok((Lookup(vendors, a).value, url))
  {
    MatchPrefixComplete(a, p);
    PrefixIsNotGitAt(a, p);
  }

  /** A word prefix cannot be `git@`, whose `@` is not a word character. */
  lemma PrefixIsNotGitAt(a: string, p: string)
    requires a != [] && forall k :: 0 <= k < |a| ==> WordChar(a[k])
    ensures MatchGit(a + ":" + p).None?
  {
    var link := a + ":" + p;
    assert !StartsWith(link, GIT_AT) by {
      if |a| > 3 {
        assert link[3] == a[3];
      } else {
        assert link[|a|] == ':';
      }
    }
  }

  /** An unknown prefix fails with the vendor lookup's error. */
  lemma UnknownPrefixLink(p: string, parse: UrlParser)
    requires p != [] && '\n' !in p
    ensures Dispatch("notfound:" + p, None, parse) == Err(NoVendor("notfound"))
  {
    var a := "notfound";
    assert forall k :: 0 <= k < |a| ==> WordChar(a[k]);
    MatchPrefixComplete(a, p);
    var link := a + ":" + p;
    assert link == "notfound:" + p;
    assert link[0] == 'n';
    assert !StartsWith(link, HTTPS);
    assert !StartsWith(link, GIT_AT);
  }

  /** A link without `:` is a path at the default vendor. */
  lemma BareLink(link: string, vendors: Option<VendorsConfig>, parse: UrlParser)
    requires ':' !in link
    requires Lookup(vendors, "").Ok?
    ensures Dispatch(link, vendors, parse) ==
      match parse("https://" + Lookup(vendors, "").value.base + "/" + link)
      case Err(m) => Err(m)
      case Ok(url) => Ok((Lookup(vendors, "").value, url))
  {
    assert !StartsWith(link, HTTPS) by {
      if |link| >= |HTTPS| {
        assert link[5] in link;
      }
    }
    assert MatchPrefix(link).None? by {
      var n := WordRun(link, 0);
      if n + 1 < |link| {
        assert link[n] in link;
      }
    }
  }

  /** A configured project name ignores the caller's git flag: the flag of
      the location is the project's, false when unset. */
  lemma AliasDecidesGit(shortlink: string, g1: bool, g2: bool, projects: Entries<Project>,
                        vendors: Option<VendorsConfig>, parse: UrlParser)
    requires Get(projects, shortlink).Some?
    ensures Expand(shortlink, g1, Some(projects), vendors, parse) ==
            Expand(shortlink, g2, Some(projects), vendors, parse)
    ensures Expand(shortlink, g1, Some(projects), vendors, parse).Ok? ==>
      Expand(shortlink, g1, Some(projects), vendors, parse).value.location.isGit ==
      Get(projects, shortlink).value.isGit.GetOr(false)
  {
  }

  /** Without an alias the caller's flag is kept in the location. */
  lemma CallerGitKept(shortlink: string, isGit: bool, projects: Option<Entries<Project>>,
                      vendors: Option<VendorsConfig>, parse: UrlParser)
    requires projects.None? || Get(projects.value, shortlink).None?
    requires Expand(shortlink, isGit, projects, vendors, parse).Ok?
    ensures Expand(shortlink, isGit, projects, vendors, parse).value.location.isGit == isGit
    ensures Expand(shortlink, isGit, projects, vendors, parse).value.actions.None?
  {
  }
}
