/**
 * build/lib/repo_sanitizer/analyzer.py: the packaged stale-branch scan. The
 * configuration it reads once at import time is passed in as the list
 * `protectedBranches` (what iterating `cfg["protected_branches"]` yields). The thread
 * pool of `find_stale` is modelled by a sequential loop: `ThreadPoolExecutor.map`
 * hands back the results in input order, and `check` only reads the repository.
 */
module Analyzer {
  import opened Wrappers
  import opened Repository
  import Seqs
  import PyText
  import GitHandler
  import BuildGitHandler

  /** `is_protected`: membership in `PROTECTED = set(cfg["protected_branches"])`. */
  function IsProtected(protectedBranches: seq<BranchName>, branch: BranchName): (r: bool)
    ensures r <==> branch in (set b | b in protectedBranches)
  {
    branch in protectedBranches
  }

  /**
   * `base_branch`: the first configured protected name that is a local branch, or
   * None when none of them is.
   */
  function BaseBranch(repo: Repo, protectedBranches: seq<BranchName>): (r: Option<BranchName>)
    ensures r.None? <==> forall i :: 0 <= i < |protectedBranches| ==> !HasHead(repo, protectedBranches[i])
    ensures r.Some? ==> HasHead(repo, r.value)
    ensures r.Some? ==>
      exists i :: 0 <= i < |protectedBranches| && protectedBranches[i] == r.value &&
        (forall j :: 0 <= j < i ==> !HasHead(repo, protectedBranches[j]))
  {
    if protectedBranches == [] then None
    else if HasHead(repo, protectedBranches[0]) then Some(protectedBranches[0])
    else
      var r := BaseBranch(repo, protectedBranches[1..]);
      assert r.Some? ==>
        exists i :: 1 <= i < |protectedBranches| && protectedBranches[i] == r.value &&
          (forall j :: 0 <= j < i ==> !HasHead(repo, protectedBranches[j])) by {
        if r.Some? {
          var i :| 0 <= i < |protectedBranches| - 1 && protectedBranches[1..][i] == r.value &&
            forall j :: 0 <= j < i ==> !HasHead(repo, protectedBranches[1..][j]);
          assert forall j :: 0 <= j < i + 1 ==> !HasHead(repo, protectedBranches[j]) by {
            forall j | 0 <= j < i + 1 ensures !HasHead(repo, protectedBranches[j]) {
              if j > 0 { assert protectedBranches[j] == protectedBranches[1..][j - 1]; }
            }
          }
        }
      }
      r
  }

  /** The list `is_merged` builds from the `--merged` output: each line with every `*` removed, then stripped. */
  function MergedNames(output: string): (names: seq<string>)
    ensures |names| == |PyText.SplitLines(output)|
    ensures forall i :: 0 <= i < |names| ==> names[i] == PyText.CleanLine(PyText.SplitLines(output)[i])
  {
    var lines := PyText.SplitLines(output);
    seq(|lines|, i requires 0 <= i < |lines| => PyText.CleanLine(lines[i]))
  }

  /** `is_merged`: some line of `git branch --merged <base>`, once cleaned, is exactly the branch name. */
  function IsMerged(repo: Repo, base: BranchName, branch: BranchName): (r: bool)
    ensures r <==> exists line :: line in PyText.SplitLines(repo.mergedListing(base)) && PyText.CleanLine(line) == branch
  {
    var names := MergedNames(repo.mergedListing(base));
    assert branch in names <==> exists line :: line in PyText.SplitLines(repo.mergedListing(base)) && PyText.CleanLine(line) == branch by {
      var lines := PyText.SplitLines(repo.mergedListing(base));
      if branch in names {
        var i :| 0 <= i < |names| && names[i] == branch;
        assert lines[i] in lines;
      }
    }
    branch in names
  }

  /** The return points of `check`, named after the reason each stands for. */
  datatype Verdict = ProtectedSkip | UpstreamGone | MergedIntoBase | NotStale

  predicate IsStale(v: Verdict) {
    v.UpstreamGone? || v.MergedIntoBase?
  }

  /**
   * `check`: protection is tested first and wins outright; then a lost upstream makes
   * the branch stale without consulting the merge state; then, if a base branch was
   * found, being listed by `--merged` does. Only the upstream lookup can raise.
   */
  function Check(repo: Repo, protectedBranches: seq<BranchName>, base: Option<BranchName>, branch: BranchName)
    : (r: Result<Verdict, GitError>)
    ensures r == Success(ProtectedSkip) <==> IsProtected(protectedBranches, branch)
    ensures r.Failure? <==> !IsProtected(protectedBranches, branch) && !HasHead(repo, branch)
    ensures r.Failure? ==> r.error == NoSuchHead(branch)
    ensures r == Success(UpstreamGone) <==>
      !IsProtected(protectedBranches, branch) && BuildGitHandler.UpstreamStatus(repo, branch) == Success(GitHandler.Gone)
    ensures r == Success(MergedIntoBase) <==>
      && !IsProtected(protectedBranches, branch)
      && HasHead(repo, branch)
      && BuildGitHandler.UpstreamStatus(repo, branch) != Success(GitHandler.Gone)
      && base.Some? && IsMerged(repo, base.value, branch)
  {
    if IsProtected(protectedBranches, branch) then Success(ProtectedSkip)
    else
      match BuildGitHandler.UpstreamStatus(repo, branch)
      case Failure(e) => Failure(e)
      case Success(status) =>
        if status == GitHandler.Gone then Success(UpstreamGone)
        else if base.Some? && IsMerged(repo, base.value, branch) then Success(MergedIntoBase)
        else Success(NotStale)
  }

  /** `find_stale` appends the branch: `check` returned its name, and the name is truthy. */
  predicate Collected(repo: Repo, protectedBranches: seq<BranchName>, base: Option<BranchName>, branch: BranchName) {
    var v := Check(repo, protectedBranches, base, branch);
    v.Success? && IsStale(v.value) && branch != ""
  }

  function CollectedBy(repo: Repo, protectedBranches: seq<BranchName>, base: Option<BranchName>): BranchName -> bool {
    b => Collected(repo, protectedBranches, base, b)
  }

  /** `check` can be run on the branch without raising. */
  predicate Checkable(repo: Repo, protectedBranches: seq<BranchName>, branch: BranchName) {
    IsProtected(protectedBranches, branch) || HasHead(repo, branch)
  }

  /**
   * The result of `find_stale` for a given base: the collected branches in input
   * order, or the error of the first branch, in input order, whose check raised
   * (`ex.map` re-raises it when the loop reaches it).
   */
  function Scan(repo: Repo, protectedBranches: seq<BranchName>, base: Option<BranchName>, branches: seq<BranchName>)
    : Result<seq<BranchName>, GitError>
  {
    if branches == [] then Success([])
    else
      match Check(repo, protectedBranches, base, branches[0])
      case Failure(e) => Failure(e)
      case Success(v) =>
        var rest := Scan(repo, protectedBranches, base, branches[1..]);
        if IsStale(v) && branches[0] != "" then Prepend([branches[0]], rest) else rest
  }

  /** `find_stale`: resolves the base once, checks every branch, keeps the truthy results in order. */
  method FindStale(repo: Repo, protectedBranches: seq<BranchName>, branches: seq<BranchName>)
    returns (r: Result<seq<BranchName>, GitError>)
    ensures r == Scan(repo, protectedBranches, BaseBranch(repo, protectedBranches), branches)
  {
    var base := BaseBranch(repo, protectedBranches);
    var stale: seq<BranchName> := [];
    var i := 0;
    assert branches[0..] == branches;
    PrependNothing(Scan(repo, protectedBranches, base, branches));
    while i < |branches|
      invariant 0 <= i <= |branches|
      invariant Scan(repo, protectedBranches, base, branches)
             == Prepend(stale, Scan(repo, protectedBranches, base, branches[i..]))
    {
      assert branches[i..][1..] == branches[i + 1..];
      var verdict := Check(repo, protectedBranches, base, branches[i]);
      if verdict.Failure? {
        return Failure(verdict.error);
      }
      if IsStale(verdict.value) && branches[i] != "" {
        PrependTwice(stale, [branches[i]], Scan(repo, protectedBranches, base, branches[i + 1..]));
        stale := stale + [branches[i]];
      }
      i := i + 1;
    }
    assert branches[i..] == [];
    assert stale + [] == stale;
    return Success(stale);
  }

  /** The scan succeeds exactly when every branch can be checked. */
  lemma {:induction false} ScanSucceeds(repo: Repo, protectedBranches: seq<BranchName>, base: Option<BranchName>,
                                        branches: seq<BranchName>)
    ensures Scan(repo, protectedBranches, base, branches).Success? <==>
      forall i :: 0 <= i < |branches| ==> Checkable(repo, protectedBranches, branches[i])
  {
    if branches != [] {
      var tail := branches[1..];
      ScanSucceeds(repo, protectedBranches, base, tail);
      assert forall i :: 1 <= i < |branches| ==> branches[i] == tail[i - 1];
    }
  }

  /** A successful scan returns the input filtered by `Collected`. */
  lemma {:induction false} ScanValue(repo: Repo, protectedBranches: seq<BranchName>, base: Option<BranchName>,
                                     branches: seq<BranchName>)
    requires Scan(repo, protectedBranches, base, branches).Success?
    ensures Scan(repo, protectedBranches, base, branches).value == Seqs.Filter(CollectedBy(repo, protectedBranches, base), branches)
  {
    if branches != [] {
      ScanValue(repo, protectedBranches, base, branches[1..]);
      assert CollectedBy(repo, protectedBranches, base)(branches[0]) == Collected(repo, protectedBranches, base, branches[0]);
    }
  }

  /** A failed scan reports the first branch, in input order, that cannot be checked. */
  lemma {:induction false} ScanFailure(repo: Repo, protectedBranches: seq<BranchName>, base: Option<BranchName>,
                                       branches: seq<BranchName>)
    requires Scan(repo, protectedBranches, base, branches).Failure?
    ensures exists i :: (
      && 0 <= i < |branches| && !Checkable(repo, protectedBranches, branches[i])
      && Scan(repo, protectedBranches, base, branches).error == NoSuchHead(branches[i])
      && forall j :: 0 <= j < i ==> Checkable(repo, protectedBranches, branches[j]))
  {
    var tail := branches[1..];
    var r := Scan(repo, protectedBranches, base, branches);
    if !Checkable(repo, protectedBranches, branches[0]) {
      assert r.error == NoSuchHead(branches[0]);
    } else {
      ScanFailure(repo, protectedBranches, base, tail);
      var i :| 0 <= i < |tail| && !Checkable(repo, protectedBranches, tail[i]) &&
        r.error == NoSuchHead(tail[i]) && forall j :: 0 <= j < i ==> Checkable(repo, protectedBranches, tail[j]);
      assert branches[i + 1] == tail[i];
      assert forall j :: 1 <= j < i + 1 ==> branches[j] == tail[j - 1];
    }
  }

  /**
   * The scan succeeds exactly when every branch can be checked; it then returns the
   * input filtered by `Collected`, and otherwise the error of the first branch that
   * cannot be checked.
   */
  lemma ScanIsFilter(repo: Repo, protectedBranches: seq<BranchName>, base: Option<BranchName>,
                     branches: seq<BranchName>)
    ensures Scan(repo, protectedBranches, base, branches).Success? <==>
      forall i :: 0 <= i < |branches| ==> Checkable(repo, protectedBranches, branches[i])
    ensures Scan(repo, protectedBranches, base, branches).Success? ==>
      Scan(repo, protectedBranches, base, branches).value == Seqs.Filter(CollectedBy(repo, protectedBranches, base), branches)
    ensures Scan(repo, protectedBranches, base, branches).Failure? ==>
      exists i :: 0 <= i < |branches| && !Checkable(repo, protectedBranches, branches[i]) &&
        Scan(repo, protectedBranches, base, branches).error == NoSuchHead(branches[i]) &&
        forall j :: 0 <= j < i ==> Checkable(repo, protectedBranches, branches[j])
  {
    ScanSucceeds(repo, protectedBranches, base, branches);
    if Scan(repo, protectedBranches, base, branches).Success? {
      ScanValue(repo, protectedBranches, base, branches);
    } else {
      ScanFailure(repo, protectedBranches, base, branches);
    }
  }

  /**
   * Which branches a successful scan returns: exactly the listed, unprotected,
   * non-empty names whose upstream is gone, or, failing that, that are listed as
   * merged into an existing base branch.
   */
  lemma ScanMembership(repo: Repo, protectedBranches: seq<BranchName>, base: Option<BranchName>,
                       branches: seq<BranchName>, b: BranchName)
    requires Scan(repo, protectedBranches, base, branches).Success?
    ensures b in Scan(repo, protectedBranches, base, branches).value <==>
      && b in branches
      && b != ""
      && !IsProtected(protectedBranches, b)
      && (|| BuildGitHandler.UpstreamStatus(repo, b) == Success(GitHandler.Gone)
          || (HasHead(repo, b) && base.Some? && IsMerged(repo, base.value, b)))
  {
    ScanIsFilter(repo, protectedBranches, base, branches);
    Seqs.FilterMembership(CollectedBy(repo, protectedBranches, base), branches);
    var v := Check(repo, protectedBranches, base, b);
    assert CollectedBy(repo, protectedBranches, base)(b) == Collected(repo, protectedBranches, base, b);
  }

  /** A protected branch is never reported stale, whatever its upstream or merge state. */
  lemma ProtectedNeverStale(repo: Repo, protectedBranches: seq<BranchName>, branches: seq<BranchName>, b: BranchName)
    requires IsProtected(protectedBranches, b)
    requires Scan(repo, protectedBranches, BaseBranch(repo, protectedBranches), branches).Success?
    ensures b !in Scan(repo, protectedBranches, BaseBranch(repo, protectedBranches), branches).value
  {
    ScanMembership(repo, protectedBranches, BaseBranch(repo, protectedBranches), branches, b);
  }

  /** Without a base branch the merge test is skipped: only branches whose upstream is gone are stale. */
  lemma NoBaseOnlyGone(repo: Repo, protectedBranches: seq<BranchName>, branches: seq<BranchName>, b: BranchName)
    requires BaseBranch(repo, protectedBranches).None?
    requires Scan(repo, protectedBranches, None, branches).Success?
    ensures b in Scan(repo, protectedBranches, None, branches).value <==>
      b in branches && b != "" && !IsProtected(protectedBranches, b) &&
      BuildGitHandler.UpstreamStatus(repo, b) == Success(GitHandler.Gone)
  {
    ScanMembership(repo, protectedBranches, None, branches, b);
  }

  /** The stale branches keep their input order, and nothing is added: the result is a subsequence of the input. */
  lemma ScanKeepsOrder(repo: Repo, protectedBranches: seq<BranchName>, base: Option<BranchName>, branches: seq<BranchName>)
    requires Scan(repo, protectedBranches, base, branches).Success?
    ensures Seqs.IsSubsequence(Scan(repo, protectedBranches, base, branches).value, branches)
  {
    ScanIsFilter(repo, protectedBranches, base, branches);
    Seqs.FilterIsSubsequence(CollectedBy(repo, protectedBranches, base), branches);
  }

  /**
   * Each branch is judged on its own: scanning a list in two parts and joining the
   * results in order gives the scan of the whole list, so the work can be spread
   * over workers as long as the results are put back in input order.
   */
  lemma {:induction false} ScanSplits(repo: Repo, protectedBranches: seq<BranchName>, base: Option<BranchName>,
                                      xs: seq<BranchName>, ys: seq<BranchName>)
    ensures Scan(repo, protectedBranches, base, xs + ys) ==
      match Scan(repo, protectedBranches, base, xs)
      case Failure(e) => Failure(e)
      case Success(s) => Prepend(s, Scan(repo, protectedBranches, base, ys))
  {
    if xs == [] {
      assert xs + ys == ys;
      PrependNothing(Scan(repo, protectedBranches, base, ys));
    } else {
      assert (xs + ys)[0] == xs[0];
      assert (xs + ys)[1..] == xs[1..] + ys;
      ScanSplits(repo, protectedBranches, base, xs[1..], ys);
      var tail := Scan(repo, protectedBranches, base, xs[1..]);
      if tail.Success? {
        PrependTwice([xs[0]], tail.value, Scan(repo, protectedBranches, base, ys));
      }
    }
  }

  /**
   * The order in which branches are evaluated does not matter: two inputs with the
   * same branches, in any order, either both fail or give the same stale branches.
   */
  lemma ScanOrderIndependent(repo: Repo, protectedBranches: seq<BranchName>, base: Option<BranchName>,
                             xs: seq<BranchName>, ys: seq<BranchName>)
    requires multiset(xs) == multiset(ys)
    ensures Scan(repo, protectedBranches, base, xs).Success? <==> Scan(repo, protectedBranches, base, ys).Success?
    ensures Scan(repo, protectedBranches, base, xs).Success? ==>
      multiset(Scan(repo, protectedBranches, base, xs).value) == multiset(Scan(repo, protectedBranches, base, ys).value)
  {
    ScanIsFilter(repo, protectedBranches, base, xs);
    ScanIsFilter(repo, protectedBranches, base, ys);
    forall i | 0 <= i < |xs| ensures xs[i] in ys {
      assert xs[i] in multiset(xs);
    }
    forall i | 0 <= i < |ys| ensures ys[i] in xs {
      assert ys[i] in multiset(ys);
    }
    Seqs.FilterPermutation(CollectedBy(repo, protectedBranches, base), xs, ys);
  }

  /** Scanning the names `get_local_branches` returns never raises. */
  lemma ScanOfLocalBranchesSucceeds(repo: Repo, protectedBranches: seq<BranchName>)
    ensures Scan(repo, protectedBranches, BaseBranch(repo, protectedBranches), BuildGitHandler.LocalBranches(repo)).Success?
  {
    var names := BuildGitHandler.LocalBranches(repo);
    BuildGitHandler.AgreesWithSource(repo, "");
    GitHandler.ListedBranchesHaveStatus(repo);
    ScanIsFilter(repo, protectedBranches, BaseBranch(repo, protectedBranches), names);
    assert forall i :: 0 <= i < |names| ==> names[i] in names;
  }
}
