/**
 * The state of a local git repository as the stale-branch scan sees it. Git itself
 * is not modelled: the answers of the few git queries the scan makes are part of
 * the state, so a `Repo` value is one fixed snapshot of the repository.
 */
module Repository {
  import opened Wrappers

  type BranchName = string
  type RefName = string
  /** A commit's hexadecimal object name, as git prints it. */
  type CommitId = string

  /** A local branch (GitPython's `Head`): its name, its tip, and the remote-tracking ref it is configured to follow. */
  datatype Head = Head(name: BranchName, commit: CommitId, tracking: Option<RefName>)

  datatype Repo = Repo(
    /** `repo.heads` (also reachable as `repo.branches`), in the order git lists them. */
    heads: seq<Head>,
    /** The refs `git rev-parse` resolves; a pruned remote-tracking ref is missing here. */
    resolvable: set<RefName>,
    /** `git merge-base a b`; None when the two commits share no history (git then fails). */
    mergeBase: (CommitId, CommitId) -> Option<CommitId>,
    /** The text `git branch --merged <base>` prints for the given base branch. */
    mergedListing: BranchName -> string)

  /** The exceptions the scan can meet. */
  datatype GitError =
    | NoSuchHead(name: BranchName)               // IndexError from `repo.heads[name]`
    | NoMergeBase(left: CommitId, right: CommitId) // GitCommandError from `git merge-base`

  /** `heads[name]`: the first head with that name, or the IndexError GitPython raises. */
  function FindHead(heads: seq<Head>, name: BranchName): (r: Result<Head, GitError>)
    ensures r.Success? <==> exists i :: 0 <= i < |heads| && heads[i].name == name
    ensures r.Success? ==> r.value.name == name && r.value in heads
    ensures r.Failure? ==> r.error == NoSuchHead(name)
  {
    if heads == [] then Failure(NoSuchHead(name))
    else if heads[0].name == name then Success(heads[0])
    else FindHead(heads[1..], name)
  }

  /** `name in repo.heads`. */
  predicate HasHead(repo: Repo, name: BranchName) {
    FindHead(repo.heads, name).Success?
  }

  /** A name is in the heads exactly when some head carries it. */
  lemma HasHeadIff(repo: Repo, name: BranchName)
    ensures HasHead(repo, name) <==> exists i :: 0 <= i < |repo.heads| && repo.heads[i].name == name
  {
  }
}
