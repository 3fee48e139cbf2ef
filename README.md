# backpack materialisation pipeline in Dafny

This project models the core of `backpack`, a command-line tool that builds a new project (`new`)
or adds files to an existing one (`apply`) from a git repository, a repository archive or a
subfolder/file in one. The pipeline:

1. **Resolves a shortlink.** Examples are `gh:user/repo`, `git@github.com:user/repo`, an `https://`
   URL, a bare `user/repo`, or a project alias from the configuration. Resolution yields a vendor,
   a `Location` and the project's actions.
2. **Looks up the vendor** (GitHub, GitLab, BitBucket, or a custom prefix from the configuration).
   The vendor resolves the git reference and builds the clone address and the `.tar.gz` archive URL.
3. **Fetches the source.** A git repository is cloned shallowly into a temporary folder. An archive
   is taken from the download cache.
4. **Computes the copy coordinate** (`from`, `to`, file or folder).
5. **Deploys.** Deployment runs the project's `before` actions and materialises the swaps (key/value
   rewrites, possibly rendered from variables). It then walks the source, copying every file
   through the swapper and asking before it overwrites. Last it runs the `after` actions.
6. **Uses the configuration throughout.** It comes from a local file, the global file, both merged,
   or a default, and holds projects, project sources and vendors. The prompts of the terminal UI
   ask for missing arguments and confirmations.

## How the model is built

**One module per core file.** The modules are Data, Shortlink, Vendors, Git, Fetch, Templates,
Content, Actions, Configuration, Merge and Ui. Six helper modules sit under them:

- Wrappers: `Option`/`Result`.
- Strings: Rust's `str::replace`, `matches().count()`, `split`, `trim_start_matches` and byte-wise
  string order.
- SortedMaps: a `BTreeMap` as a sorted association list, so that iteration order is the source's.
- Paths: the subset of `std::path` the core uses.
- Files: a file system as a map from path to content, in a class whose methods write it.
- Answers: the stream of terminal answers.

**Pure code becomes datatypes, functions and lemmas.** This covers Data, Shortlink, Vendors, Fetch
and the Git reference selection.

**Code that changes state becomes classes:**

- `Actions.ActionRunner` holds the answers stream and the variable bag; `Play` and `Run` update them.
- `Ui.Prompt` consumes answers.
- `Configuration.Config` holds projects and sources that `AddProjectSource` and
  `AddRemoteProjects` reassign.
- `Content.Deployer` copies into a `Files.FileSystem`.

**Loops become methods proved against specification functions.** This covers the
`ActionRunner.Run` loop over actions, the `Content.Deployer.Copy` walk, `Templates.RenderContent`
and `Templates.Swapper.PathOf`. Each method's `ensures` ties its result and new state to a
recursive function of the old state. The properties the source promises are lemmas about those
functions.

**Collaborators the core cannot see become function-typed parameters.** These are regular
expressions, the tera renderer, binary/text detection, shell scripts, `git ls-remote`, `git clone`,
the download cache, the temporary folder, the walk listing, and the existence of destination
folders.

## Model

| member | source | states |
|---|---|---|
| Data.From | backpack/src/data.rs:38-65 | Location parsing never fails. It keeps the URL's text, domain, fragment (as the git ref), port, query and credentials. There is a subfolder exactly when the path splits into two around `/-/`. The project name is the last path segment and contains no `/` |
| Data.ProjectIsLastSegment | backpack/src/data.rs:47-50 | The project name has no `/` and is either the whole repository path or its final `/`-segment |
| Data.SubfolderSplit | backpack/src/data.rs:39-45 | When a subfolder is split off, repository path + `/-/` + subfolder is the URL path and neither part contains `/-/`; otherwise the path is the URL path |
| Data.NoSeparatorNoSubfolder | backpack/src/data.rs:39-45 | Without `/-/` in the URL path, the repository path is the URL path and there is no subfolder |
| Data.SeparatorTwiceNoSubfolder | backpack/src/data.rs:39-45 | With two `/-/` separators the split has three parts, so no subfolder is recognised and the whole path is kept |
| Data.Location.GitUrl | backpack/src/data.rs:21-27 | The ssh address is `git@`, the domain, `:`, the path with its leading slashes removed, and `.git` |
| Data.Location.WebUrl | backpack/src/data.rs:29-31 | The web address is `https://`, the domain and the path, nothing else |
| Git.SelectRef | backpack/src/git.rs:41-60 | With a ref given, the result is the first listed ref ending with it; it fails with "no such ref found: …" exactly when none does. Without one, and with no `HEAD` listed, it fails with "no HEAD ref found". Otherwise the first `HEAD` decides: the result is the first non-HEAD ref at its revision, and "no default branch found" exactly when there is none. Any result is one of the listed refs |
| Git.GetRefOrDefault | backpack/src/git.rs:41-68 | Asks `ls-remote` for the git URL when the location is git and for the web URL otherwise. A listing error is returned unchanged; otherwise the result is SelectRef on the listing |
| Git.DefaultBranchFound | backpack/src/git.rs:51-59 | When a HEAD and a branch at HEAD's revision are listed, the default ref is found |
| Git.TagBySuffix | backpack/src/git.rs:43-48 | A tag named by its suffix (`v6.2.0`) selects `refs/tags/v6.2.0` |
| Git.BranchBySuffix | backpack/src/git.rs:43-48 | A branch named by its suffix selects `refs/heads/<branch>` |
| Git.DefaultBySharedRevision | backpack/src/git.rs:51-59 | With no ref, the branch that shares HEAD's revision is chosen, not HEAD itself |
| Git.CloneArgs | backpack/src/git.rs:99-107 | The argument list is `clone --depth=1 [-b <ref>] <giturl> <out>` |
| Git.CloneArgsUnique | backpack/src/git.rs:99-107 | The clone argument list is uniquely determined by ref, git URL and output folder |
| Git.CloneOutcome | backpack/src/git.rs:109-120 | Cloning succeeds exactly when the process ran and exited successfully. A failure to run gives "git handling failed"; a failed exit gives "cannot clone: <url>" followed by stderr |
| Git.ShallowClone | backpack/src/git.rs:94-121 | Runs `git` with exactly the clone argument list and returns CloneOutcome of that run |
| Vendors.LookupTable | backpack/src/vendors.rs:42-51 | `gh`/`github`/`github.com`, `gl`/`gitlab`/`gitlab.com` and `bb`/`bitbucket`/`bitbucket.org` map to their kind, with the given base or the kind's default host. Any other token fails with "no vendor found for: …" |
| Vendors.Configured | backpack/src/vendors.rs:19-40 | The empty prefix resolves to the configured default vendor when there is one, else to GitHub at `github.com`. Any other prefix resolves exactly when the configuration maps it, and to that mapping |
| Vendors.Lookup | backpack/src/vendors.rs:19-40 | A vendor configured for the token wins: its kind decides the vendor, with the configured base, and an unknown kind fails with "no vendor found for: …". Otherwise the built-in table decides with the kind's default host, and an unknown token fails the same way |
| Vendors.DefaultIsGithub | backpack/src/vendors.rs:20-29 | With no configured default, a bare shortlink resolves to GitHub at `github.com` |
| Vendors.CustomOverridesTable | backpack/src/vendors.rs:30-40 | A custom vendor under a prefix is used with its own kind and base |
| Vendors.UnknownPrefixFails | backpack/src/vendors.rs:42-51 | An unconfigured unknown prefix fails with the vendor-not-found message |
| Vendors.Resolve | backpack/src/vendors.rs:87-194 | The location is kept. A ref error is returned unchanged. The assets are a git address `git@<base>:<path without leading slashes>.git` and a `.tar.gz` archive at `https://<base><path>…` for the resolved ref, unpacked from its first folder |
| Vendors.CloneAddressIsLocations | backpack/src/vendors.rs:87-108 | When the vendor base is the location's domain, the vendor's clone address equals the location's own git URL |
| Vendors.GitlabFileNameFlat | backpack/src/vendors.rs:128-149 | Replacing `/` with `-` in a ref leaves no `/` in the archive file name |
| Shortlink.MatchGit | backpack/src/shortlink.rs:15 | Matches `^git@(.+?):(.+)$`: the link is `git@` + domain + `:` + path, with the lazy domain ending at the first colon |
| Shortlink.GitAddressRoundTrip | backpack/src/shortlink.rs:15 | Parsing `git@<d>:<p>` back gives exactly `(d, p)` when `d` has no colon |
| Shortlink.Dispatch | backpack/src/shortlink.rs:40-83 | An `https://` link is parsed as it is; a missing domain gives "domain is missing"; the vendor is looked up by domain. Otherwise `git@D:P` looks up `D` and parses `https://D/P`. Otherwise `prefix:path` looks up the prefix and parses the path under the vendor's base. Otherwise the default vendor's base is used. The first failing step's error is returned |
| Shortlink.GitUrlDispatch | backpack/src/data.rs:21-27 | A location's ssh address is read back as its own domain and path, and dispatched to the vendor configured for that domain |
| Shortlink.WebUrlDispatch | backpack/src/data.rs:29-31 | A location's web address is dispatched as a full address, to the vendor of its parsed domain |
| Shortlink.MatchPrefix | backpack/src/shortlink.rs:16 | Matches `^([a-zA-Z0-9_-]+):(.+)$`: a non-empty word prefix, a colon and a non-empty rest |
| Shortlink.MatchPrefixComplete | backpack/src/shortlink.rs:16 | Every word prefix and single-line rest is recognised and split back into the same parts |
| Shortlink.WordRun | backpack/src/shortlink.rs:16 | Measures the longest run of word characters, so the prefix group is maximal |
| Shortlink.Alias | backpack/src/shortlink.rs:25-38 | A configured project replaces the shortlink with its own, takes `is_git` from the project (default false) and brings its actions. Otherwise the inputs pass through with no actions |
| Shortlink.Expand | backpack/src/shortlink.rs:20-87 | Dispatches on the aliased link and parses the location with the aliased `is_git` flag |
| Shortlink.HttpsFirst | backpack/src/shortlink.rs:40-48 | An `https://` link is looked up by its URL domain. A URL without a domain fails with "domain is missing" |
| Shortlink.GitAtLink | backpack/src/shortlink.rs:49-63 | `git@<d>:<p>` uses vendor `d` and the URL `https://<d>/<p>` |
| Shortlink.PrefixLink | backpack/src/shortlink.rs:64-78 | `<prefix>:<p>` uses the prefix's vendor and the URL `https://<vendor base>/<p>` |
| Shortlink.UnknownPrefixLink | backpack/src/shortlink.rs:64-69 | An unknown prefix fails with the vendor-not-found error |
| Shortlink.BareLink | backpack/src/shortlink.rs:79-83 | A link without a colon uses the default vendor and `https://<base>/<link>` |
| Shortlink.AliasDecidesGit | backpack/src/shortlink.rs:25-38 | For a configured alias the caller's git flag is irrelevant: the project decides it, and its actions are returned |
| Shortlink.CallerGitKept | backpack/src/shortlink.rs:25-38 | For an unaliased link the caller's git flag is kept and no actions are returned |
| Shortlink.Resolve | backpack/src/shortlink.rs:100-108 | Expansion errors propagate. Otherwise the vendor resolves the location, with its ref source, into location and assets, and the actions are passed on |
| Fetch.FreshnessLifetime | backpack/src/fetch.rs:52 | The cache lifetime is zero exactly when caching is disabled, and one day otherwise |
| Fetch.FetchGit | backpack/src/fetch.rs:39-44 | A temporary-folder error or a clone error is returned. On success the result is the temporary folder, marked as temporary |
| Fetch.FetchArchive | backpack/src/fetch.rs:47-74 | Cache errors propagate. The root is the extracted folder itself, a named folder inside it, or the first entry inside it. The result is never marked temporary |
| Fetch.FetchSource | backpack/src/fetch.rs:21-36 | Git locations are cloned. Otherwise an archive is required ("no archive found" when it is missing) and fetched from the cache |
| Fetch.TemporaryIffGit | backpack/src/fetch.rs:21-74 | The fetched folder is temporary exactly when the location is git |
| Fetch.FolderRootInside | backpack/src/fetch.rs:68 | A named relative archive root lies under the extracted folder |
| Fetch.CacheFlagOnlyChangesLifetime | backpack/src/fetch.rs:48-58 | `no_cache` changes only the lifetime asked of the cache |
| Templates.MatchPath | backpack/src/templates.rs:33-41 | A swap applies to a path when it is not content-only and has no path regex or its regex matches |
| Templates.MatchContent | backpack/src/templates.rs:43-51 | A swap applies to content when it is not path-only and has no path regex or its regex matches |
| Templates.PathSwapsMembers | backpack/src/templates.rs:95-103 | The path swaps are exactly the swaps that match the path |
| Templates.ContentSwapsMembers | backpack/src/templates.rs:122-164 | The content swaps are exactly the swaps that match the path for content |
| Templates.Swapper.PathOf | backpack/src/templates.rs:95-103 | The swapped path is the chain of replacements over the matching path swaps. It is unchanged when none match |
| Templates.Swapper.ExistsIn | backpack/src/templates.rs:166-169 | True exactly when the swapped destination is an existing file; the copy walk asks about overwriting only then |
| Templates.RenderContent | backpack/src/templates.rs:105-115 | The output is the chain of replacements. The count is the total of matches found at each step. No swaps means the original and zero |
| Templates.ChainCountZero | backpack/src/templates.rs:105-115 | Zero matches counted means the content is unchanged |
| Templates.ChainSelf | backpack/src/templates.rs:105-115 | Swaps whose value equals their key leave the text unchanged |
| Templates.ChainSameLength | backpack/src/templates.rs:105-115 | Swaps whose value is as long as their key preserve the text's length |
| Templates.ContentSwapsLeavePaths | backpack/src/templates.rs:33-41 | Content-only swaps never rename a path |
| Templates.SwapPathExample | backpack/src/templates.rs:359-385 | A `$SWAPME$` key inside a path is replaced by its value |
| Templates.KeptPathExample | backpack/src/templates.rs:359-385 | A path without the key keeps its name |
| Templates.MaterializeOne | backpack/src/templates.rs:171-191 | A swap with a fixed value is returned unchanged. Otherwise a successfully rendered value template becomes the value and nothing else changes. A render error is returned, and a swap with neither gives the "neither val or val_template" error |
| Templates.Materialize | backpack/src/templates.rs:171-191 | All swaps materialise in order, one for one, or the first failing swap's error is returned |
| Templates.WithVars | backpack/src/templates.rs:87-93 | No swaps gives an empty swapper. Otherwise it succeeds exactly when materialisation does, its swaps are the materialised swaps, every one has a value, and a failure carries materialisation's error |
| Templates.CopyToSpec | backpack/src/templates.rs:122-164 | The target is the swapped destination, and a destination without a parent fails with "cannot get parent". With no content swap for the source, or binary content, the file is copied. Text with content swaps is written rendered, and the result records the match count. Only the target changes |
| Templates.RenderedZeroIsCopy | backpack/src/templates.rs:146-156 | When no content swap matched, the destination receives the source's exact content |
| Templates.CopyTo | backpack/src/templates.rs:122-164 | Writes exactly what CopyToSpec describes into the file system and returns its result |
| Actions.ResponseOf | backpack/src/actions.rs:96-115 | A string or list item becomes its text, and a `true` confirmation the text "true". Anything else is a cancellation |
| Actions.UpdateVarbag | backpack/src/actions.rs:70-76 | With an output variable, the bag maps it to the input and keeps every other key. Without one it is unchanged. Key order is kept |
| Actions.PlayOutcome | backpack/src/actions.rs:83-116 | Consumes one answer. A failed answer propagates; otherwise the response is ResponseOf and textual responses are stored in the bag |
| Actions.ActionRunner.constructor | backpack/src/actions.rs:152-158 | A runner starts with its actions, its answer stream and an empty bag |
| Actions.ActionRunner.Play | backpack/src/actions.rs:83-116 | Playing an interaction updates answers and bag exactly as PlayOutcome describes |
| Actions.ActionRunner.Run | backpack/src/actions.rs:165-248 | Running the actions yields the results, bag and remaining answers that RunFrom describes over the initial state |
| Actions.OneResultPerAction | backpack/src/actions.rs:173-247 | A successful run yields one result per action, in order and with the action's name |
| Actions.ErrorStopsRun | backpack/src/actions.rs:173-247 | Once an action fails, later actions are not performed and the error is the run's result |
| Actions.CancelSkipsCommand | backpack/src/actions.rs:190-200 | A cancelled interaction never runs the script. It either breaks with "stop requested (break_if_cancel)" or records a cancelled result |
| Actions.RefusalBreaksRun | backpack/src/actions.rs:106-112 | Declining a confirmation on a `break_if_cancel` action stops the whole run with the stop error |
| Actions.NoQuestionNoAnswer | backpack/src/actions.rs:181-186 | An action without interaction consumes no answer and leaves the bag alone |
| Actions.VarbagWrites | backpack/src/actions.rs:96-110 | One step changes the bag only at the interaction's output variable |
| Actions.RunKeepsBagSorted | backpack/src/actions.rs:70-76 | The variable bag stays sorted by key throughout a run |
| Actions.ExitGate | backpack/src/actions.rs:222-243 | A non-zero exit code fails the action ("in action '…': command returned exit code '…'") unless `ignore_exit` is set. Otherwise the result records script, code and output |
| Actions.RenderScript | backpack/src/actions.rs:217-220 | A script without any `{{var}}` token of the bag is run as written. Actions.RenderReplacesKnownKeepsUnknown and Actions.RenderKeepsUnknown state that other placeholders are replaced and unknown ones kept |
| Actions.Step | backpack/src/actions.rs:181-189 | An action without a question acts on `NoResponse` and consumes no answer. One with a question consumes one answer, and the action acts on that response with the bag that already holds it |
| Actions.Act | backpack/src/actions.rs:189-243 | A response error is the action's error. Without a script the result records the response and no run. With one, a script error is the action's error, and a success records the rendered script, an exit code of zero unless exit codes are ignored, and the response |
| Actions.RenderOneVariable | backpack/src/actions.rs:217-220 | `{{name}}` in a script is replaced by the variable's value |
| Actions.TokenMismatch | backpack/src/actions.rs:217-220 | The placeholder of a different brace-free variable name never starts with this variable's placeholder |
| Actions.TokenMismatchInside | backpack/src/actions.rs:217-220 | Nor does one start at the second brace of a placeholder |
| Actions.UnknownTokenKept | backpack/src/actions.rs:217-220 | Replacing one variable copies another variable's placeholder unchanged, and goes on after it |
| Actions.RenderKeepsUnknown | backpack/src/actions.rs:217-220 | A `{{zip}}` placeholder of a variable that is not in the bag survives rendering |
| Actions.RenderReplacesKnownKeepsUnknown | backpack/src/actions.rs:217-220 | In one script the bag's `{{name}}` is replaced by its value while a later unknown placeholder is kept |
| Configuration.ProjectSource.FileName | backpack/src/config.rs:392-394 | A project source file name is the source's name followed by `.yaml` |
| Configuration.Selection | backpack/src/config.rs:360-375 | No projects gives an empty selection |
| Configuration.Filter | backpack/src/config.rs:365-372 | Filtering never adds projects |
| Configuration.FilterMembers | backpack/src/config.rs:365-372 | A project is kept exactly when the mode is `all`, it has no mode, its mode is `all`, or its mode is the requested one |
| Configuration.SelectionMembers | backpack/src/config.rs:360-375 | The selection is exactly the configured projects that are selected for the mode |
| Configuration.FilterKeepsOrder | backpack/src/config.rs:360-375 | The selection keeps the map's key order |
| Configuration.SelectAllIsEverything | backpack/src/config.rs:366 | Mode `all` selects every project |
| Configuration.ApplyOnlyNotCopied | backpack/src/config.rs:367-370 | An apply-only project is never offered for `new` |
| Configuration.AddIfAbsent | backpack/src/config.rs:350-352 | An existing key is never replaced |
| Configuration.AddMissingGet | backpack/src/config.rs:347-355 | After adding one remote map, each key keeps its local project when it has one, else takes the remote one |
| Configuration.MergeRemoteGet | backpack/src/config.rs:342-358 | After merging all remote maps, each key keeps its local project, else takes the first remote map that provides it |
| Configuration.AddMissingSorted | backpack/src/config.rs:347-355 | Adding remote projects keeps the map sorted |
| Configuration.MergeRemoteSorted | backpack/src/config.rs:342-358 | Merging remote projects keeps the map sorted |
| Configuration.RemoteCannotOverwrite | backpack/src/config.rs:516-549 | A remote project never overwrites a local one under the same name |
| Configuration.LoadOrDefault | backpack/src/config.rs:118-151 | The load source is local, global, merged or default exactly as the two files exist, and the configuration is the loaded one, the merge, or the default. With both files, a load error of the global one propagates first, then one of the local one, then a merge error |
| Configuration.InitTo | backpack/src/config.rs:276-282 | An existing file gives "configuration file already exists: …" and the files are unchanged. Otherwise the template is written at the path and nothing else changes |
| Configuration.InitNeverOverwrites | backpack/src/config.rs:276-282 | Initialising never changes any existing file |
| Configuration.InitFile | backpack/src/config.rs:276-282 | Writes exactly what InitTo describes into the file system |
| Configuration.Config.constructor | backpack/src/config.rs:74-83 | A configuration holds the given project sources, projects and vendors, with its projects in name order (Valid) |
| Configuration.Config.ProjectNamed | backpack/src/config.rs:377-381 | A project is found exactly when its shortlink is a configured key, and it is that key's project |
| Configuration.Config.ProjectsForSelection | backpack/src/config.rs:360-375 | Contains exactly the configured projects selected for the mode |
| Configuration.Config.AddProjectSource | backpack/src/config.rs:329-335 | Appends the named source to the sources (creating the list) and changes nothing else; the projects stay in name order |
| Configuration.Config.AddRemoteProjects | backpack/src/config.rs:342-358 | Projects become the local ones merged with the remote maps, where local entries win, and stay in name order; nothing else changes |
| Merge.MergeValue | backpack/src/merge.rs:14-32 | Computes the merged value: objects merge key by key, arrays concatenate, an object is appended to an array, null keeps the left value, and anything else takes the right value |
| Merge.NullChangesNothing | backpack/src/merge.rs:27 | Merging null into a value leaves it unchanged |
| Merge.NullTakesRight | backpack/src/merge.rs:28-30 | Merging into null takes the right value |
| Merge.ArraysConcatenate | backpack/src/merge.rs:21-26 | Arrays concatenate, and an object merged into an array is appended |
| Merge.MergeFieldsGet | backpack/src/merge.rs:16-20 | Each key of the right object holds the merge of the left entry (or null) with the right one; other keys keep the left entry |
| Merge.MergeFieldsKeys | backpack/src/merge.rs:16-20 | The merged object's keys are the union of both sides' keys |
| Merge.MergeFieldsSorted | backpack/src/merge.rs:16-20 | Merging keeps the object's keys sorted |
| Merge.ObjectsMerge | backpack/src/merge.rs:16-20 | Objects merge to an object with the union of keys. Right keys merge recursively, left-only keys are kept, and a right null on a new key adds null |
| Merge.MergeStructs | backpack/src/merge.rs:34-42 | Conversion errors of either side propagate. Otherwise the result is the merged value converted back |
| Content.NewCoordinate | backpack/src/content.rs:31-75 | From is the source joined with the subfolder. It fails exactly when `from` is a file without a name. A file goes to `dest/<name>`, or to the subfolder path or its own name when no destination is given. A folder goes to the destination, the subfolder or `.` |
| Content.WholeRepositoryHere | backpack/src/content.rs:65-66 | A folder without a subfolder or destination is copied to `.` |
| Content.SubfolderFileKeepsItsPath | backpack/src/content.rs:57-64 | A single file picked by subfolder lands at the subfolder path |
| Content.FileKeepsItsName | backpack/src/content.rs:47-53 | A single file copied into a destination folder keeps its file name |
| Content.Decide | backpack/src/content.rs:198-204 | `Always` copies and `Never` skips, both without asking. `Ask` copies only on a confirmed answer, and a failed answer counts as no |
| Content.WalkFacts | backpack/src/content.rs:171-217 | Walking never removes files. The copies already made stay at the head of the result, at most one copy is added per listed entry, and every recorded destination exists afterwards. Walk order is stated by Content.WalkCopiesTargets |
| Content.WalkFrom | backpack/src/content.rs:171-217 | The walk never removes a file, keeps the copies already made at the head of its result, and adds at most one per remaining entry |
| Content.WalkSkipsEntry | backpack/src/content.rs:172-182 | An entry under an ignored name (`.git`, `.backpack-project.yml`), in an ignored walked folder, or without its file is passed over: nothing is asked, written or reported |
| Content.WalkEntry | backpack/src/content.rs:182-212 | A listed file is copied exactly when its rewritten destination is absent, or the policy is `Always`, or it is `Ask` and the answer is yes. An answer is consumed only when asked. A failed copy ends the walk with its error, and a successful one is the walk's next result, at the rewritten destination |
| Content.WalkCopiesTargets | backpack/src/content.rs:171-217 | The destinations copied are the rewritten destinations of listed, non-ignored entries, in walk order, each entry at most once |
| Content.NeverOverwrites | backpack/src/content.rs:197-204 | Without `Always` or `Ask`, existing destination files keep their content |
| Content.AlwaysAsksNothing | backpack/src/content.rs:198-199 | With `Always` no question is asked |
| Content.IgnoredFolderCopiesNothing | backpack/src/content.rs:82 | A source ending in `.git` or `.backpack-project.yml` copies nothing |
| Content.SingleFileIgnoresPolicy | backpack/src/content.rs:167-169 | A single file is copied through the swapper whatever the overwrite policy, and no question is asked |
| Content.ActionsDest | backpack/src/content.rs:99-103 | Actions run in the destination folder. For a single file they run in the destination's parent, or in `.` when it has none |
| Content.Hooked | backpack/src/content.rs:109-117 | The actions run for a hook are exactly the project's actions bound to that hook, at most all of them |
| Content.HookedAppend | backpack/src/content.rs:109-117 | Filtering by hook keeps the order: the actions of a concatenation are those of each part, one after the other |
| Content.HookedSingle | backpack/src/content.rs:109-117 | A single action is run for its own hook and for no other |
| Content.NoSetupRunsNothing | backpack/src/content.rs:105-152 | Without project setup no action runs, no runner answer is used and no after-results are returned |
| Content.FailedBeforeCopiesNothing | backpack/src/content.rs:109-117 | When a before action fails, nothing is copied and the error is returned |
| Content.OverwriteAllAsksNothing | backpack/src/content.rs:126-130 | With `--overwrite` the prompt is never consulted |
| Content.Deployer.constructor | backpack/src/content.rs:85-87 | A deployer holds its action runner |
| Content.Deployer.Copy | backpack/src/content.rs:158-218 | The walk copies and asks exactly as CopySpec describes over the old files and answers. Content.WalkEntry, Content.WalkSkipsEntry and Content.WalkCopiesTargets state what that walk does |
| Content.Deployer.Deploy | backpack/src/content.rs:90-155 | Runner answers, bag, files and prompt answers end as DeploySpec describes. The order is: before actions, then swaps, then copy, then after actions |
| Ui.FirstFree | backpack/src/ui.rs:311-317 | Returns the first `my-projectN` not taken, from N up to 98. It fails with "too many apps generated, pick a custom app name?" exactly when all are taken |
| Ui.GuessDest | backpack/src/ui.rs:311-317 | The guessed destination is the first free `my-project1`..`my-project98` |
| Ui.FirstGuessInEmptyFolder | backpack/src/ui.rs:311-317 | In a folder without `my-project1` the guess is `my-project1` |
| Ui.Asked | backpack/src/ui.rs:276-285 | Takes one answer and returns it. A failed input gives "cannot take input", and so does input that has ended |
| Ui.Confirmed | backpack/src/ui.rs:187-210 | A confirmation is true exactly when the answer is `true`. Input errors propagate |
| Ui.OnlyYesConfirms | backpack/src/ui.rs:187-210 | Any answer other than `true` declines |
| Ui.TextAnswer | backpack/src/ui.rs:132-136 | A typed answer is its text. An input error propagates, and a non-text answer gives the parse error. Both text questions read this way |
| Ui.ShortlinkAnswer | backpack/src/ui.rs:121-138 | The shortlink is the answered text. An input error propagates, and a non-text answer gives the parse error |
| Ui.DestAnswer | backpack/src/ui.rs:145-164 | The guess is made first, and its error is returned before asking. After it an input error propagates, a non-text answer gives the parse error, and an empty answer means no destination |
| Ui.GuessFailsWithoutOffering | backpack/src/ui.rs:145-146 | When every guess is taken, input_dest fails before consuming an answer |
| Ui.EmptyDestIsNone | backpack/src/ui.rs:154-163 | An empty destination answer means "no destination" |
| Ui.ProjectLabel | backpack/src/ui.rs:81-93 | A project is offered as `name (apply+new)`, `name (apply)` or `name (new)` by its mode |
| Ui.Labels | backpack/src/ui.rs:79-94 | One label per selected project, in order |
| Ui.Picked | backpack/src/ui.rs:71-115 | With nothing to select, the result is none. With choices, a selection error propagates. A project is picked exactly when a list item with a valid index was chosen, and it is the project at that index |
| Ui.PickedIsOffered | backpack/src/ui.rs:77-108 | A picked project is a configured project selected for the mode |
| Ui.DoneSummary | backpack/src/ui.rs:240-274 | Only with progress shown. The files listed are all of them when there are at most ten, otherwise the first ten with "and N more" for the remaining count. The action names are those of the actions run, in order (none without actions). The file total and action count are reported |
| Ui.Prompt.constructor | backpack/src/ui.rs:20-34 | A prompt holds the projects, its answers and the progress flag |
| Ui.Prompt.PromptOne | backpack/src/ui.rs:276-285 | Consumes an answer as Asked describes |
| Ui.Prompt.Confirm | backpack/src/ui.rs:187-210 | Consumes a confirmation as Confirmed describes |
| Ui.Prompt.ConfirmOverwrite | backpack/src/ui.rs:204-210 | Asks to overwrite a file as Confirmed describes |
| Ui.Prompt.AreYouSure | backpack/src/ui.rs:187-197 | Asks for the final confirmation as Confirmed describes |
| Ui.Prompt.ConfirmSaveRemotes | backpack/src/ui.rs:171-180 | Asks to save remote projects as Confirmed describes |
| Ui.Prompt.InputText | backpack/src/ui.rs:132-136 | Reads one answer as TextAnswer describes |
| Ui.Prompt.InputShortlink | backpack/src/ui.rs:121-138 | Reads the shortlink as ShortlinkAnswer describes |
| Ui.Prompt.InputDest | backpack/src/ui.rs:145-164 | Reads the destination as DestAnswer describes |
| Ui.Prompt.PickProject | backpack/src/ui.rs:71-115 | Picks a project as Picked describes |
| Ui.Prompt.FillMissing | backpack/src/ui.rs:41-64 | Asks for the shortlink only when it is missing, and otherwise picks or asks for one. Asks for the destination only when it is missing, guessing for `new` |
| Ui.GivenArgumentsAskNothing | backpack/src/ui.rs:41-64 | With shortlink and destination given, nothing is asked and both are returned |
| Ui.GivenShortlinkUsed | backpack/src/ui.rs:41-64 | A given shortlink is the one returned. No project is picked and no shortlink is asked for, so without a destination the answers left and the destination are exactly those of the destination question |
| Ui.GivenDestUsed | backpack/src/ui.rs:41-64 | A given destination is the one returned. Only the shortlink question reads an answer, and only when no shortlink is given and no project is picked; a picked project is the shortlink and a picking error is returned |

## Left out

- Regular expressions, tera rendering and the text/binary detection of `content_inspector` are function parameters. So are `run_script`, `git ls-remote` (through libgit2 with SSH keys), the `git` process, the download cache, the temporary folder and the first entry of an extracted archive.
- The walkdir listing is a parameter: a sequence of relative paths taken before copying. I/O errors while walking and `strip_prefix` errors are not modelled.
- The file system is a map from path to content. Directories, permissions, UTF-8 decoding and I/O errors are not modelled, and creating parent folders is implicit.
- Templates.CopyTo, Content.Deployer.Copy and Content.Deployer.Deploy require the copied source file to be present in the map, where the source would report an I/O error.
- Paths are strings with a simplified subset of `std::path` semantics: join, file name, parent, trailing separators. `..` and `.` are handled only as far as file names need.
- Merge.MergeValue works on values and returns the merged value rather than updating in place. JSON numbers are integers. Serde (de)serialisation is a pair of function parameters of Merge.MergeStructs.
- The deployer's action runner comes from a separate crate. It is modelled by Actions.ActionRunner. The before/after partition of actions is a function parameter, and variables pass through the runner's bag.
- The action runner and the prompt read from separate answer streams.
- The configuration file template is a parameter of Configuration.InitTo. The global and local configuration file locations and environment variables are not modelled.
- YAML parsing of configuration and project files is not modelled. The load results are parameters of Configuration.LoadOrDefault.
- `Config::sync`, `load_remote_projects`, `fetch_and_load_remote_projects`, `save` and `save_to` are left out: they download and write YAML over the network and the disk. `add_remote_projects`, which takes their result, is modelled.
- Ui.ShortlinkAnswer and Ui.DestAnswer: the question library's validation (non-empty shortlink) and the offered default destination belong to the answer stream, which supplies final answers.
- Ui.Picked: the terminal selection is given as a parameter, not read from the answer stream.
- The multi-question `Prompt::prompt` has no callers and is left out.
- Printing is left out: `say_resolving`, `say_fetching`, `say_unpacking`, `say_actions`, `say_action` and the tracing spans. `say_done` is modelled as the Ui.Summary value it prints.
- A coordinate's `remove_from` flag only produces a warning in the source and has no effect in the model.
- The panics of archive extraction when the archive holds no entry are folded into the first-entry parameter's error.
- The "cannot find project name" error of Data.From is unreachable, because splitting always yields a last segment. It is not modelled.
- An exhausted answer stream is modelled as the "cannot take input" error in Ui and as an "input ended" error in Actions. The source would block on the terminal.
