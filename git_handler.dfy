/** The branch queries of src/repo_sanitizer/git_handler.py. */
module GitHandler {
  import opened Wrappers
  import opened Repository

  /** The three answers of `get_upstream_status`. */
  datatype Upstream = NoUpstream | Exists | Gone

  /** `get_local_branches`: the name of every head, one per head, in the repository's order. */
  function LocalBranches(repo: Repo): (names: seq<BranchName>)
    ensures |names| == |repo.heads|
    ensures forall i :: 0 <= i < |names| ==> names[i] == repo.heads[i].name
  {
    seq(|repo.heads|, i requires 0 <= i < |repo.heads| => repo.heads[i].name)
  }

  /**
   * `get_upstream_status`: a branch without a tracking branch has no upstream; one whose
   * tracking ref still resolves has an existing upstream; one whose ref no longer
   * resolves has lost it. The failed `rev-parse` becomes a value; only the lookup of a
   * branch that is not a local head raises.
   */
  function UpstreamStatus(repo: Repo, branchName: BranchName): (r: Result<Upstream, GitError>)
    ensures r.Failure? <==> !HasHead(repo, branchName)
    ensures r.Failure? ==> r.error == NoSuchHead(branchName)
    ensures r.Success? ==>
      var tracking := FindHead(repo.heads, branchName).value.tracking;
      && (r.value == NoUpstream <==> tracking.None?)
      && (r.value == Exists <==> tracking.Some? && tracking.value in repo.resolvable)
      && (r.value == Gone <==> tracking.Some? && tracking.value !in repo.resolvable)
  {
    match FindHead(repo.heads, branchName)
    case Failure(e) => Failure(e)
    case Success(branch) =>
      match branch.tracking
      case None => Success(NoUpstream)
      case Some(upstream) => if upstream in repo.resolvable then Success(Exists) else Success(Gone)
  }

  /** Every name `get_local_branches` lists can be looked up, so asking for its upstream never raises. */
  lemma ListedBranchesHaveStatus(repo: Repo)
    ensures forall b :: b in LocalBranches(repo) ==> HasHead(repo, b) && UpstreamStatus(repo, b).Success?
  {
    var names := LocalBranches(repo);
    forall b | b in names
      ensures HasHead(repo, b)
    {
      var i :| 0 <= i < |names| && names[i] == b;
      assert repo.heads[i].name == b;
    }
  }
}
