/**
 * build/lib/analyzer.py: the older, sequential scan with a fixed protected set and a
 * fixed base, `main`, deciding "merged" by an ancestor test on commits. It imports
 * `get_upstream_status` from a top-level `git_handler` module; build/lib/git_handler.py
 * is not part of this model, and the query of src/repo_sanitizer/git_handler.py
 * stands for it.
 */
module LegacyAnalyzer {
  import opened Wrappers
  import opened Repository
  import Seqs
  import GitHandler

  /** `PROTECTED`. */
  const Protected: set<BranchName> := {"main", "master", "dev", "develop"}

  /** `is_protected`: the four fixed names, and no other. */
  function IsProtected(name: BranchName): (r: bool)
    ensures r <==> name == "main" || name == "master" || name == "dev" || name == "develop"
  {
    name in Protected
  }

  /**
   * `is_merged_into_main`: false when there is no `main` head; otherwise whether the
   * merge-base of main's tip and the branch's tip is the branch's tip, i.e. whether
   * the branch tip is an ancestor of main. `git merge-base` fails, and the failure
   * escapes, when the two tips share no history.
   */
  function IsMergedIntoMain(repo: Repo, branchName: BranchName): (r: Result<bool, GitError>)
    ensures !HasHead(repo, "main") ==> r == Success(false)
    ensures HasHead(repo, "main") && !HasHead(repo, branchName) ==> r == Failure(NoSuchHead(branchName))
    ensures HasHead(repo, "main") && HasHead(repo, branchName) ==>
      var mainTip := FindHead(repo.heads, "main").value.commit;
      var tip := FindHead(repo.heads, branchName).value.commit;
      && (r.Failure? <==> repo.mergeBase(mainTip, tip).None?)
      && (r.Failure? ==> r.error == NoMergeBase(mainTip, tip))
      && (r == Success(true) <==> repo.mergeBase(mainTip, tip) == Some(tip))
  {
    if !HasHead(repo, "main") then Success(false)
    else
      var mainTip := FindHead(repo.heads, "main").value.commit;
      match FindHead(repo.heads, branchName)
      case Failure(e) => Failure(e)
      case Success(branch) =>
        match repo.mergeBase(mainTip, branch.commit)
        case None => Failure(NoMergeBase(mainTip, branch.commit))
        case Some(base) => Success(base == branch.commit)
  }

  /**
   * One pass of the loop body of `find_stale_branches`: whether it appends the
   * branch. A protected branch is skipped; a lost upstream appends it before the
   * merge test is reached; otherwise the merge test decides.
   */
  function Appended(repo: Repo, branch: BranchName): (r: Result<bool, GitError>)
    ensures IsProtected(branch) ==> r == Success(false)
    ensures !IsProtected(branch) && GitHandler.UpstreamStatus(repo, branch).Failure? ==>
      r == Failure(NoSuchHead(branch))
    ensures !IsProtected(branch) && GitHandler.UpstreamStatus(repo, branch) == Success(GitHandler.Gone) ==>
      r == Success(true)
    ensures (!IsProtected(branch) && GitHandler.UpstreamStatus(repo, branch).Success? &&
             GitHandler.UpstreamStatus(repo, branch).value != GitHandler.Gone) ==>
      r == IsMergedIntoMain(repo, branch)
  {
    if IsProtected(branch) then Success(false)
    else
      match GitHandler.UpstreamStatus(repo, branch)
      case Failure(e) => Failure(e)
      case Success(status) =>
        if status == GitHandler.Gone then Success(true) else IsMergedIntoMain(repo, branch)
  }

  /** The result of `find_stale_branches`: the appended branches in order, or the first exception raised. */
  function LegacyScan(repo: Repo, branches: seq<BranchName>): Result<seq<BranchName>, GitError> {
    if branches == [] then Success([])
    else
      match Appended(repo, branches[0])
      case Failure(e) => Failure(e)
      case Success(appended) =>
        var rest := LegacyScan(repo, branches[1..]);
        if appended then Prepend([branches[0]], rest) else rest
  }

  /** `find_stale_branches`. */
  method FindStaleBranches(repo: Repo, localBranches: seq<BranchName>) returns (r: Result<seq<BranchName>, GitError>)
    ensures r == LegacyScan(repo, localBranches)
  {
    var stale: seq<BranchName> := [];
    assert localBranches[0..] == localBranches;
    PrependNothing(LegacyScan(repo, localBranches));
    for i := 0 to |localBranches|
      invariant LegacyScan(repo, localBranches) == Prepend(stale, LegacyScan(repo, localBranches[i..]))
    {
      assert localBranches[i..][1..] == localBranches[i + 1..];
      var branch := localBranches[i];
      if IsProtected(branch) {
        continue;
      }
      var upstream := GitHandler.UpstreamStatus(repo, branch);
      if upstream.Failure? {
        return Failure(upstream.error);
      }
      if upstream.value == GitHandler.Gone {
        PrependTwice(stale, [branch], LegacyScan(repo, localBranches[i + 1..]));
        stale := stale + [branch];
        continue;
      }
      var merged := IsMergedIntoMain(repo, branch);
      if merged.Failure? {
        return Failure(merged.error);
      }
      if merged.value {
        PrependTwice(stale, [branch], LegacyScan(repo, localBranches[i + 1..]));
        stale := stale + [branch];
        continue;
      }
    }
    assert localBranches[|localBranches|..] == [];
    assert stale + [] == stale;
    return Success(stale);
  }

  function AppendedBy(repo: Repo): BranchName -> bool {
    b => Appended(repo, b) == Success(true)
  }

  /**
   * The legacy scan succeeds exactly when every branch's pass succeeds; it then
   * returns the input filtered by `Appended`, and otherwise the error of the first
   * failing branch in input order.
   */
  lemma {:induction false} LegacyScanIsFilter(repo: Repo, branches: seq<BranchName>)
    ensures LegacyScan(repo, branches).Success? <==> forall i :: 0 <= i < |branches| ==> Appended(repo, branches[i]).Success?
    ensures LegacyScan(repo, branches).Success? ==> LegacyScan(repo, branches).value == Seqs.Filter(AppendedBy(repo), branches)
    ensures LegacyScan(repo, branches).Failure? ==>
      exists i :: 0 <= i < |branches| && Appended(repo, branches[i]) == Failure(LegacyScan(repo, branches).error) &&
        forall j :: 0 <= j < i ==> Appended(repo, branches[j]).Success?
  {
    if branches != [] {
      var tail := branches[1..];
      LegacyScanIsFilter(repo, tail);
      assert forall i :: 1 <= i < |branches| ==> branches[i] == tail[i - 1];
      var r := LegacyScan(repo, branches);
      if r.Failure? && Appended(repo, branches[0]).Success? {
        var i :| 0 <= i < |tail| && Appended(repo, tail[i]) == Failure(r.error) &&
          forall j :: 0 <= j < i ==> Appended(repo, tail[j]).Success?;
        assert Appended(repo, branches[i + 1]) == Failure(r.error);
      }
    }
  }

  /**
   * Which branches a successful legacy scan returns: exactly the listed, unprotected
   * names whose upstream is gone, or whose tip is an ancestor of main's.
   */
  lemma LegacyMembership(repo: Repo, branches: seq<BranchName>, b: BranchName)
    requires LegacyScan(repo, branches).Success?
    ensures b in LegacyScan(repo, branches).value <==>
      && b in branches
      && !IsProtected(b)
      && (|| GitHandler.UpstreamStatus(repo, b) == Success(GitHandler.Gone)
          || IsMergedIntoMain(repo, b) == Success(true))
  {
    LegacyScanIsFilter(repo, branches);
    Seqs.FilterMembership(AppendedBy(repo), branches);
    assert AppendedBy(repo)(b) == (Appended(repo, b) == Success(true));
    if b in branches && !IsProtected(b) && IsMergedIntoMain(repo, b) == Success(true) {
      var i :| 0 <= i < |branches| && branches[i] == b;
      assert Appended(repo, b).Success?;
    }
  }

  /** A protected branch is skipped and never appended. */
  lemma LegacyProtectedNeverStale(repo: Repo, branches: seq<BranchName>, b: BranchName)
    requires IsProtected(b)
    requires LegacyScan(repo, branches).Success?
    ensures b !in LegacyScan(repo, branches).value
  {
    LegacyMembership(repo, branches, b);
  }

  /**
   * A lost upstream appends the branch and skips the merge test: the scan's answer
   * for such a branch is the same whatever the merge-bases are, even when the
   * branch's history is unrelated to main's.
   */
  lemma GoneSkipsMergeTest(repo: Repo, mergeBase: (CommitId, CommitId) -> Option<CommitId>, branch: BranchName)
    requires !IsProtected(branch)
    requires GitHandler.UpstreamStatus(repo, branch) == Success(GitHandler.Gone)
    ensures Appended(repo, branch) == Success(true)
    ensures Appended(repo.(mergeBase := mergeBase), branch) == Success(true)
  {
    assert FindHead(repo.(mergeBase := mergeBase).heads, branch) == FindHead(repo.heads, branch);
  }

  /** Without a `main` head the merge test always fails, so only branches whose upstream is gone are stale. */
  lemma NoMainOnlyGone(repo: Repo, branches: seq<BranchName>, b: BranchName)
    requires !HasHead(repo, "main")
    requires LegacyScan(repo, branches).Success?
    ensures b in LegacyScan(repo, branches).value <==>
      b in branches && !IsProtected(b) && GitHandler.UpstreamStatus(repo, b) == Success(GitHandler.Gone)
  {
    LegacyMembership(repo, branches, b);
  }

  /** The result lists branches in input order and adds none: it is a subsequence of the input. */
  lemma LegacyKeepsOrder(repo: Repo, branches: seq<BranchName>)
    requires LegacyScan(repo, branches).Success?
    ensures Seqs.IsSubsequence(LegacyScan(repo, branches).value, branches)
  {
    LegacyScanIsFilter(repo, branches);
    Seqs.FilterIsSubsequence(AppendedBy(repo), branches);
  }
}
