# Stale-branch detection of Git-Janitor (repo-sanitizer), in Dafny

Git-Janitor looks for local git branches that can be cleaned up. A branch is
*stale* when its remote upstream has been pruned ("gone") or when it has already
been merged into a base branch. Protected branches (main, master, dev, develop,
or the configured list) are never reported. This project models the part of the
tool that decides this:

- **The packaged analyzer** (`build/lib/repo_sanitizer/analyzer.py`, module `Analyzer`).
  It reads the protected list from the configuration once. The base branch is the
  first protected name that exists locally. "Merged" means the branch is listed by
  `git branch --merged <base>` once the line's `*` is removed and the line is stripped.
  `find_stale` checks all branches through a thread pool and keeps the truthy results
  in input order.
- **The legacy analyzer** (`build/lib/analyzer.py`, module `LegacyAnalyzer`). It uses
  a fixed protected set and a fixed base, `main`. "Merged" means the merge-base of
  main's tip and the branch's tip is the branch's tip.
- **The git queries** `get_local_branches` and `get_upstream_status`. Both copies are
  modelled: `src/repo_sanitizer/git_handler.py` (module `GitHandler`) and
  `build/lib/repo_sanitizer/git_handler.py` (module `BuildGitHandler`).
- **The configuration** (`src/repo_sanitizer/config.py`, module `Config`):
  `DEFAULT_CONFIG` overlaid by the mapping from `.repo-sanitizer.yml`.

Git itself is not modelled. A `Repository.Repo` value is a snapshot of what the scan
can ask git:

- the local heads, each with its name, tip commit and tracking ref;
- the set of refs that `git rev-parse` still resolves;
- a merge-base function, which answers `None` for unrelated histories;
- the text `git branch --merged <base>` prints for each base.

Every exception that can escape the scan is a `Failure` in a `Result`:

- looking up a branch that is not a local head (`NoSuchHead`);
- `git merge-base` on unrelated histories (`NoMergeBase`);
- the configuration errors: a file that is not a mapping, or a missing or
  non-iterable `protected_branches`.

Both scans are written twice:

- as a method with the source's loop (`Analyzer.FindStale`,
  `LegacyAnalyzer.FindStaleBranches`);
- as a recursive specification function (`Analyzer.Scan`, `LegacyAnalyzer.LegacyScan`).

Each method's postcondition ties it to its function. The lemmas then prove what the
functions mean:

- each scan is a filter of its input;
- exactly which branches are returned;
- protected branches never are;
- order is kept;
- reordering the input reorders the packaged result and changes nothing else
  (success or failure, and which branches are returned);
- the packaged scan of the local branches cannot fail (the legacy one can, with
  the merge-base error on a branch whose history is unrelated to main's, as
  `Strategies.UnrelatedHistoryDiverges` shows);
- when the two strategies agree, and three cases where they do not: a branch with
  history unrelated to main's, an ancestor of main checked out in another worktree,
  and a repository whose base is `master` because it has no `main`.

`PyText` models the Python string functions `is_merged` relies on: `str.splitlines`,
`str.strip`, `str.isspace` and `str.replace`. `Strategies` proves how they parse
git's listing. `Scenarios` works out the scans on a small four-branch repository.

Where the code does something other than one would expect, the model follows the
code:

- One would expect both strategies to treat a branch with unrelated history as
  not merged. In `build/lib/analyzer.py:21`, `git merge-base` fails on such a branch
  and the exception escapes `find_stale_branches`. `Strategies.UnrelatedHistoryDiverges`
  proves this.
- One would expect a failure on one branch not to abort the whole scan. In
  `build/lib/repo_sanitizer/analyzer.py:40-41`, `ex.map` re-raises the first failing
  `check` as the results are read, so the whole `find_stale` fails with the error of
  the first failing branch in input order. `Analyzer.ScanFailure` proves this.
- `build/lib/analyzer.py` imports `get_upstream_status` from a top-level
  `git_handler` module. build/lib/git_handler.py is not part of this model. The
  query of `src/repo_sanitizer/git_handler.py` stands in for it.

## Model

| member | source | states |
|---|---|---|
| Repository.HasHeadIff | build/lib/repo_sanitizer/analyzer.py:16 | `HasHead`, the model of `name in repo.branches` (and `"main" in repo.heads` in the legacy analyzer) holds iff some head has exactly that name |
| Repository.FindHead | src/repo_sanitizer/git_handler.py:29 | `repo.heads[name]` succeeds exactly when a head has that name, returns a head of that name, and otherwise fails with `NoSuchHead(name)` |
| GitHandler.LocalBranches | src/repo_sanitizer/git_handler.py:22-24 | one name per head, the i-th name being the i-th head's |
| GitHandler.UpstreamStatus | src/repo_sanitizer/git_handler.py:27-39 | raises exactly for a branch that is not a head; otherwise "no-upstream" iff no tracking ref, "exists" iff the ref resolves, "gone" iff it does not |
| GitHandler.ListedBranchesHaveStatus | src/repo_sanitizer/git_handler.py:22-39 | every listed local branch is a head, so asking for its upstream never raises |
| BuildGitHandler.LocalBranches | build/lib/repo_sanitizer/git_handler.py:17-18 | one name per entry of `repo.branches`, in order |
| BuildGitHandler.UpstreamStatus | build/lib/repo_sanitizer/git_handler.py:20-29 | same three-way characterisation and error as the other copy, reached through `repo.branches` and `not upstream` |
| BuildGitHandler.AgreesWithSource | build/lib/repo_sanitizer/git_handler.py:17-29 | the two copies of both queries return the same answer on every repository and branch |
| Config.LoadConfig | src/repo_sanitizer/config.py:11-16 | no file gives the defaults; a non-mapping document gives the TypeError; a mapping gives the union of keys, with the file's value for every file key and the default for every other key |
| Config.ProtectedBranches | build/lib/repo_sanitizer/analyzer.py:7-15 | iterating `cfg["protected_branches"]`: KeyError when the key is missing, the list's items, a string's characters, a mapping's keys in order, and TypeError for a bool, a number or None (fails exactly in the KeyError and TypeError cases) |
| Config.MappingProtectsKeys | src/repo_sanitizer/config.py:15 | a file giving the protected branches as a mapping `main:`, `dev:` protects main and dev |
| Config.DefaultsProtect | src/repo_sanitizer/config.py:4-9 | without a file the protected branches are main, master, dev, develop in that order, and the other three defaults are exactly as written |
| Config.LoadedProtectedBranches | src/repo_sanitizer/config.py:11-16 | a loaded configuration always has the protected key; it takes the file's value when the file sets it, and the default list otherwise |
| PyText.SplitLines | build/lib/repo_sanitizer/analyzer.py:23 | `str.splitlines`: no line holds a line boundary; empty text and only empty text gives no lines |
| PyText.SplitJoin | build/lib/repo_sanitizer/analyzer.py:23 | splitting text joined with "\n" gives back non-empty lines that have no line boundary |
| PyText.StripLeading | build/lib/repo_sanitizer/analyzer.py:23 | the result is a suffix of the input; everything removed is whitespace; the result does not start with whitespace |
| PyText.StripTrailing | build/lib/repo_sanitizer/analyzer.py:23 | the result is a prefix of the input; everything removed is whitespace; the result does not end with whitespace |
| PyText.StripIsSlice | build/lib/repo_sanitizer/analyzer.py:23 | `Strip`, the model of `str.strip`: the result is a slice of the input with only whitespace cut from either end and no whitespace left at either end; all-whitespace input gives the empty string |
| PyText.DropStars | build/lib/repo_sanitizer/analyzer.py:23 | `replace("*", "")`: no `*` remains, every other character keeps its count, and the result is a subsequence of the input, so order is kept |
| PyText.CleanMarkedLine | build/lib/repo_sanitizer/analyzer.py:23 | a line `"* "` or `"  "` followed by a plain name cleans to the name; a line `"+ "` followed by the name cleans to itself |
| Analyzer.IsProtected | build/lib/repo_sanitizer/analyzer.py:7-11 | true iff the branch is in the set of configured protected names |
| Analyzer.BaseBranch | build/lib/repo_sanitizer/analyzer.py:14-18 | None iff no protected name is a local head; otherwise a local head that is a protected name, with every protected name listed before it absent |
| Analyzer.MergedNames | build/lib/repo_sanitizer/analyzer.py:22-23 | one cleaned name per output line, the i-th being line i with `*` removed and stripped |
| Analyzer.IsMerged | build/lib/repo_sanitizer/analyzer.py:21-24 | true iff some line of the `--merged` output, cleaned, is exactly the branch name |
| Analyzer.Check | build/lib/repo_sanitizer/analyzer.py:31-38 | protected iff skipped; raises (NoSuchHead) iff unprotected and not a head; gone iff unprotected with a pruned upstream; merged iff unprotected, a head, upstream not gone, a base exists and the branch is listed as merged |
| Analyzer.FindStale | build/lib/repo_sanitizer/analyzer.py:27-45 | the loop returns the scan of the branches against the base computed once at the start |
| Analyzer.ScanSucceeds | build/lib/repo_sanitizer/analyzer.py:40-43 | the scan succeeds iff every branch is protected or a local head |
| Analyzer.ScanValue | build/lib/repo_sanitizer/analyzer.py:40-43 | a successful scan returns, in order, exactly the branches whose check returned a truthy name |
| Analyzer.ScanFailure | build/lib/repo_sanitizer/analyzer.py:40-41 | a failed scan raises the NoSuchHead of the first branch, in input order, that cannot be checked |
| Analyzer.ScanIsFilter | build/lib/repo_sanitizer/analyzer.py:27-45 | the three above together: success iff all checkable, value is the filter, failure names the first bad branch |
| Analyzer.ScanMembership | build/lib/repo_sanitizer/analyzer.py:31-43 | a branch is returned iff it is listed, non-empty, unprotected, and either its upstream is gone or it is a head listed as merged into an existing base |
| Analyzer.ProtectedNeverStale | build/lib/repo_sanitizer/analyzer.py:32-33 | a protected branch is never returned |
| Analyzer.NoBaseOnlyGone | build/lib/repo_sanitizer/analyzer.py:36 | without a base branch, exactly the unprotected listed branches whose upstream is gone are returned |
| Analyzer.ScanKeepsOrder | build/lib/repo_sanitizer/analyzer.py:41-43 | the result is a subsequence of the input |
| Analyzer.ScanSplits | build/lib/repo_sanitizer/analyzer.py:41-43 | the scan of `xs + ys` is the scan of `xs` followed by the scan of `ys`, failing with `xs`'s error first |
| Analyzer.ScanOrderIndependent | build/lib/repo_sanitizer/analyzer.py:40-43 | inputs that are permutations of each other succeed alike, and their results are permutations of each other |
| Analyzer.ScanOfLocalBranchesSucceeds | build/lib/repo_sanitizer/analyzer.py:27-45 | scanning the names `get_local_branches` returns never raises |
| LegacyAnalyzer.IsProtected | build/lib/analyzer.py:5-9 | true iff the name is main, master, dev or develop |
| LegacyAnalyzer.IsMergedIntoMain | build/lib/analyzer.py:12-21 | false without main; NoSuchHead for a missing branch; otherwise fails iff the tips share no history, and true iff the merge-base is the branch tip |
| LegacyAnalyzer.Appended | build/lib/analyzer.py:27-38 | a protected branch is skipped; a missing one raises; a gone upstream appends it; otherwise the merge test decides |
| LegacyAnalyzer.FindStaleBranches | build/lib/analyzer.py:24-40 | the loop returns the legacy scan of the branches |
| LegacyAnalyzer.LegacyScanIsFilter | build/lib/analyzer.py:24-40 | success iff every pass succeeds; the value is the input filtered by "appended"; failure is the first failing pass's error |
| LegacyAnalyzer.LegacyMembership | build/lib/analyzer.py:27-38 | a branch is returned iff it is listed, unprotected, and its upstream is gone or its tip is an ancestor of main's |
| LegacyAnalyzer.LegacyProtectedNeverStale | build/lib/analyzer.py:28-29 | a protected branch is never returned |
| LegacyAnalyzer.GoneSkipsMergeTest | build/lib/analyzer.py:31-34 | a branch with a gone upstream is appended whatever the merge-bases are |
| LegacyAnalyzer.NoMainOnlyGone | build/lib/analyzer.py:14-15 | without a main head exactly the unprotected listed branches whose upstream is gone are returned |
| LegacyAnalyzer.LegacyKeepsOrder | build/lib/analyzer.py:27-40 | the result is a subsequence of the input |
| Strategies.ListingParses | build/lib/repo_sanitizer/analyzer.py:21-24 | on a listing in git's format, a plain name is found iff it is listed without the other-worktree marker `+` |
| Strategies.DefaultProtectionAgrees | build/lib/analyzer.py:5 | the packaged analyzer with the default configuration protects exactly the legacy set |
| Strategies.DefaultBaseIsMain | build/lib/repo_sanitizer/analyzer.py:14-18 | with defaults and a main head, the base branch is main |
| Strategies.BranchAgreement | build/lib/analyzer.py:27-38 | given git's `--merged main` listing with no worktree marks, for one branch meeting the comparison's conditions, both analyzers fail alike and collect it alike |
| Strategies.StrategiesAgree | build/lib/analyzer.py:24-40 | with defaults, a main head, a `--merged main` listing in git's format that marks no branch as checked out in another worktree, and every branch reaching the merge test sharing history with main and listed iff it is an ancestor of main, the two scans return the same result |
| Strategies.WorktreeBranchDiverges | build/lib/repo_sanitizer/analyzer.py:21-24 | an unprotected ancestor of main with a live upstream that git lists only as `+ b` is reported by the legacy scan and not by the packaged one |
| Strategies.MasterBaseDiverges | build/lib/analyzer.py:14-15 | without main but with master, a branch listed as merged into master is reported by the packaged scan (base master) and not by the legacy one |
| Strategies.UnrelatedHistoryDiverges | build/lib/analyzer.py:17-21 | for an unprotected branch with unrelated history whose upstream is not gone, the legacy scan raises the merge-base error and the packaged scan succeeds |
| Scenarios.ScenarioA | build/lib/repo_sanitizer/analyzer.py:32-35 | on the sample repository, main is skipped as protected and feature-x, whose upstream is gone, is stale |
| Scenarios.ScenarioB | build/lib/repo_sanitizer/analyzer.py:36-37 | old-feature, listed as merged into main with a live upstream, is stale by the merge test |
| Scenarios.ScenarioC | build/lib/repo_sanitizer/analyzer.py:38 | wip, unmerged with a live upstream, is not stale |
| Scenarios.ScenarioAll | build/lib/repo_sanitizer/analyzer.py:27-45 | the scan of all four sample branches returns feature-x and old-feature |
| Scenarios.ScenarioNoBase | build/lib/repo_sanitizer/analyzer.py:36 | with a protected list naming no existing head, only feature-x is stale |
| Scenarios.LegacyScenario | build/lib/analyzer.py:24-40 | the legacy scan of the sample returns feature-x and old-feature too |

## Left out

- The thread pool of `find_stale` is modelled as a sequential loop. `ex.map` yields results in input order and `check` only reads, so the order in which the pool evaluates the checks cannot change the result. This is argued from the code, not proved: the model has no concurrent evaluation to compare with.
- I/O is modelled as data. The existence and contents of `.repo-sanitizer.yml` are given as a `ConfigFile` holding what `yaml.safe_load` returned. YAML parsing and `OSError` on open are not modelled.
- Git internals are modelled as data. `rev-parse` is membership in a set of resolvable refs, `merge-base` is a function, and the `--merged` listing is a text per base. Running git, its errors other than the ones above, and a repository that changes during the scan are not modelled.
- GitPython's `IterableList` lookup by name is modelled as an exact name match on the heads. A branch named like an attribute of the list itself (`sort`, `index`, `count`) is not modelled: there `in` reports it present and `[]` returns a bound method instead of the head.
- Config.ProtectedBranches: items of a YAML list and keys of a YAML mapping that are not strings are not modelled, because both are typed as strings.
- The user interface and other modules are not part of this model: `main.py`, `ui.py`, `ai_explainer.py`, `logger.py` and `undo.py`. They decide what is shown and deleted, not what is stale.
- Several git_handler functions are not part of this model: `load_repo`, `fetch_and_prune`, `get_branch_metadata`, `stage_all_changes`, `get_staged_diff`, `commit_changes` and `push_changes`. They perform I/O or side effects outside the scan.
- Analyzer.IsMerged: the model follows the code, which removes only `*` and so never matches a branch git marks with `+` (checked out in another worktree). `Strategies.ListingParses` states this. Whether the authors meant to handle `+` cannot be told from the code.
- Analyzer.BaseBranch: the packaged code returns a `Head` object; the model returns its name, which is all `is_merged` uses (`base.name`).
