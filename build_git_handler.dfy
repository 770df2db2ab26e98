/**
 * The branch queries of build/lib/repo_sanitizer/git_handler.py, the copy the
 * packaged analyzer imports. It reads `repo.branches`, which GitPython defines as
 * the same list as `repo.heads`, and tests `not upstream` where the other copy tests
 * `upstream is None`; a tracking reference object is always truthy.
 */
module BuildGitHandler {
  import opened Wrappers
  import opened Repository
  import GitHandler

  /** `repo.branches`. */
  function Branches(repo: Repo): seq<Head> {
    repo.heads
  }

  /** `get_local_branches`: the name of each entry of `repo.branches`, same count, same order. */
  function LocalBranches(repo: Repo): (names: seq<BranchName>)
    ensures |names| == |Branches(repo)|
    ensures forall i :: 0 <= i < |names| ==> names[i] == Branches(repo)[i].name
  {
    seq(|Branches(repo)|, i requires 0 <= i < |Branches(repo)| => Branches(repo)[i].name)
  }

  /** `get_upstream_status`, written against `repo.branches`. */
  function UpstreamStatus(repo: Repo, branch: BranchName): (r: Result<GitHandler.Upstream, GitError>)
    ensures r.Failure? <==> !HasHead(repo, branch)
    ensures r.Failure? ==> r.error == NoSuchHead(branch)
    ensures r.Success? ==>
      var tracking := FindHead(repo.heads, branch).value.tracking;
      && (r.value == GitHandler.NoUpstream <==> tracking.None?)
      && (r.value == GitHandler.Exists <==> tracking.Some? && tracking.value in repo.resolvable)
      && (r.value == GitHandler.Gone <==> tracking.Some? && tracking.value !in repo.resolvable)
  {
    match FindHead(Branches(repo), branch)
    case Failure(e) => Failure(e)
    case Success(b) =>
      if b.tracking.None? then Success(GitHandler.NoUpstream)
      else if b.tracking.value in repo.resolvable then Success(GitHandler.Exists)
      else Success(GitHandler.Gone)
  }

  /** The two copies of the git queries answer alike on every repository and branch. */
  lemma AgreesWithSource(repo: Repo, branch: BranchName)
    ensures UpstreamStatus(repo, branch) == GitHandler.UpstreamStatus(repo, branch)
    ensures LocalBranches(repo) == GitHandler.LocalBranches(repo)
  {
  }
}
