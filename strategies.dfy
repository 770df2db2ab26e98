/**
 * The two ways the source decides that a branch is merged, and when they agree:
 * the packaged analyzer reads the names listed by `git branch --merged <base>`, the
 * legacy one compares the merge-base of main and the branch with the branch tip.
 */
module Strategies {
  import opened Wrappers
  import opened Repository
  import PyText
  import Config
  import GitHandler
  import BuildGitHandler
  import Analyzer
  import LegacyAnalyzer

  /** The mark git puts before a branch name: the checked-out branch, one checked out in another worktree, or none. */
  datatype Marker = Current | OtherWorktree | Plain

  datatype ListingEntry = ListingEntry(marker: Marker, name: BranchName)

  function MarkerText(m: Marker): string {
    match m
    case Current => "* "
    case OtherWorktree => "+ "
    case Plain => "  "
  }

  function ListingLines(entries: seq<ListingEntry>): (lines: seq<string>)
    ensures |lines| == |entries|
    ensures forall i :: 0 <= i < |entries| ==> lines[i] == MarkerText(entries[i].marker) + entries[i].name
  {
    seq(|entries|, i requires 0 <= i < |entries| => MarkerText(entries[i].marker) + entries[i].name)
  }

  /** The text `git branch` prints for a list of branches, one per line. */
  function RenderListing(entries: seq<ListingEntry>): string {
    PyText.JoinLines(ListingLines(entries))
  }

  /** A rendered line is non-empty and holds no line boundary. */
  lemma LineIsWhole(entry: ListingEntry)
    requires PyText.PlainName(entry.name)
    ensures MarkerText(entry.marker) + entry.name != []
    ensures PyText.NoLineBoundary(MarkerText(entry.marker) + entry.name)
  {
    var line := MarkerText(entry.marker) + entry.name;
    forall k | 0 <= k < |line| ensures !PyText.IsLineBoundary(line[k]) {
      if k >= 2 {
        assert line[k] == entry.name[k - 2];
        PyText.LineBoundaryIsSpace(line[k]);
      }
    }
  }

  /** A line with the worktree marker is never a plain name: its second character is a space. */
  lemma WorktreeLineIsNoName(name: string, b: BranchName)
    requires PyText.PlainName(b)
    ensures "+ " + name != b
  {
    var line := "+ " + name;
    assert line[1] == ' ';
    assert |b| >= 2 ==> b[1] != ' ';
  }

  /** A rendered line cleans to `b` exactly when it names `b` without the worktree marker. */
  lemma LineCleans(entry: ListingEntry, b: BranchName)
    requires PyText.PlainName(entry.name)
    requires PyText.PlainName(b)
    ensures PyText.CleanLine(MarkerText(entry.marker) + entry.name) == b <==>
      entry.name == b && entry.marker != OtherWorktree
  {
    PyText.CleanMarkedLine(entry.name);
    if entry.marker == OtherWorktree {
      WorktreeLineIsNoName(entry.name, b);
    }
  }

  /** Splitting a rendered listing gives back its lines. */
  lemma ListingSplits(entries: seq<ListingEntry>)
    requires forall i :: 0 <= i < |entries| ==> PyText.PlainName(entries[i].name)
    ensures PyText.SplitLines(RenderListing(entries)) == ListingLines(entries)
  {
    var lines := ListingLines(entries);
    forall i | 0 <= i < |lines|
      ensures lines[i] != [] && PyText.NoLineBoundary(lines[i])
    {
      LineIsWhole(entries[i]);
    }
    PyText.SplitJoin(lines);
  }

  /** Some rendered line cleans to `b` exactly when `b` is listed without the worktree marker. */
  lemma ListedNameFound(entries: seq<ListingEntry>, b: BranchName)
    requires forall i :: 0 <= i < |entries| ==> PyText.PlainName(entries[i].name)
    requires PyText.PlainName(b)
    ensures (exists line :: line in ListingLines(entries) && PyText.CleanLine(line) == b) <==>
      exists i :: 0 <= i < |entries| && entries[i].name == b && entries[i].marker != OtherWorktree
  {
    var lines := ListingLines(entries);
    if exists line :: line in lines && PyText.CleanLine(line) == b {
      var line :| line in lines && PyText.CleanLine(line) == b;
      var i :| 0 <= i < |lines| && lines[i] == line;
      LineCleans(entries[i], b);
    }
    if exists i :: 0 <= i < |entries| && entries[i].name == b && entries[i].marker != OtherWorktree {
      var i :| 0 <= i < |entries| && entries[i].name == b && entries[i].marker != OtherWorktree;
      LineCleans(entries[i], b);
      assert lines[i] in lines;
    }
  }

  /**
   * Parsing a listing git printed finds exactly the listed names, except those
   * marked as checked out in another worktree: `is_merged` strips `*` but not `+`.
   */
  lemma ListingParses(repo: Repo, base: BranchName, entries: seq<ListingEntry>, b: BranchName)
    requires forall i :: 0 <= i < |entries| ==> PyText.PlainName(entries[i].name)
    requires PyText.PlainName(b)
    requires repo.mergedListing(base) == RenderListing(entries)
    ensures Analyzer.IsMerged(repo, base, b) <==>
      exists i :: 0 <= i < |entries| && entries[i].name == b && entries[i].marker != OtherWorktree
  {
    ListingSplits(entries);
    ListedNameFound(entries, b);
  }

  /** The packaged analyzer with default settings protects exactly the legacy analyzer's fixed set. */
  lemma DefaultProtectionAgrees(b: BranchName)
    ensures Analyzer.IsProtected(Config.DefaultProtected, b) <==> LegacyAnalyzer.IsProtected(b)
  {
  }

  /** With default settings and a `main` head, the packaged analyzer's base branch is `main`. */
  lemma DefaultBaseIsMain(repo: Repo)
    requires HasHead(repo, "main")
    ensures Analyzer.BaseBranch(repo, Config.DefaultProtected) == Some("main")
  {
  }

  function Tip(repo: Repo, b: BranchName): CommitId
    requires HasHead(repo, b)
  {
    FindHead(repo.heads, b).value.commit
  }

  /**
   * What `git branch --merged main` printed: a listing of plain branch names in git's
   * format, none of them marked as checked out in another worktree.
   */
  predicate MainListing(repo: Repo, entries: seq<ListingEntry>) {
    && repo.mergedListing("main") == RenderListing(entries)
    && forall i :: 0 <= i < |entries| ==> PyText.PlainName(entries[i].name) && entries[i].marker != OtherWorktree
  }

  /**
   * What the comparison needs of one branch: a non-empty name, and, if both scans
   * reach the merge test for it, a plain name, a history shared with main, and a
   * place in git's listing exactly when its tip is an ancestor of main's.
   */
  predicate Comparable(repo: Repo, entries: seq<ListingEntry>, b: BranchName)
    requires HasHead(repo, "main")
  {
    && b != ""
    && (HasHead(repo, b) && !LegacyAnalyzer.IsProtected(b) &&
        GitHandler.UpstreamStatus(repo, b) != Success(GitHandler.Gone) ==>
          && PyText.PlainName(b)
          && repo.mergeBase(Tip(repo, "main"), Tip(repo, b)).Some?
          && ((exists i :: 0 <= i < |entries| && entries[i].name == b) <==>
              repo.mergeBase(Tip(repo, "main"), Tip(repo, b)) == Some(Tip(repo, b))))
  }

  lemma BranchAgreement(repo: Repo, entries: seq<ListingEntry>, b: BranchName)
    requires HasHead(repo, "main")
    requires MainListing(repo, entries)
    requires Comparable(repo, entries, b)
    ensures Analyzer.Check(repo, Config.DefaultProtected, Some("main"), b).Failure? <==>
      LegacyAnalyzer.Appended(repo, b).Failure?
    ensures Analyzer.Check(repo, Config.DefaultProtected, Some("main"), b).Failure? ==>
      Analyzer.Check(repo, Config.DefaultProtected, Some("main"), b).error == LegacyAnalyzer.Appended(repo, b).error
    ensures Analyzer.Collected(repo, Config.DefaultProtected, Some("main"), b) <==>
      LegacyAnalyzer.Appended(repo, b) == Success(true)
  {
    BuildGitHandler.AgreesWithSource(repo, b);
    if HasHead(repo, b) && !LegacyAnalyzer.IsProtected(b) && GitHandler.UpstreamStatus(repo, b) != Success(GitHandler.Gone) {
      ListingParses(repo, "main", entries, b);
    }
  }

  /**
   * The two analyzers give the same answer on every list of branches, provided
   * `main` exists, the configuration is the default one, `git branch --merged main`
   * marks no branch as checked out in another worktree, and every branch that
   * reaches the merge test shares history with main and is listed exactly when it
   * is an ancestor of main.
   */
  lemma {:induction false} StrategiesAgree(repo: Repo, entries: seq<ListingEntry>, branches: seq<BranchName>)
    requires HasHead(repo, "main")
    requires MainListing(repo, entries)
    requires forall i :: 0 <= i < |branches| ==> Comparable(repo, entries, branches[i])
    ensures Analyzer.Scan(repo, Config.DefaultProtected, Analyzer.BaseBranch(repo, Config.DefaultProtected), branches)
         == LegacyAnalyzer.LegacyScan(repo, branches)
  {
    DefaultBaseIsMain(repo);
    if branches != [] {
      BranchAgreement(repo, entries, branches[0]);
      StrategiesAgree(repo, entries, branches[1..]);
    }
  }

  /**
   * Where the two disagree, first case: a branch that is an ancestor of main but is
   * checked out in another worktree. git lists it as "+ b", `is_merged` does not
   * recognise that line, so only the legacy scan reports the branch.
   */
  lemma WorktreeBranchDiverges(repo: Repo, entries: seq<ListingEntry>, b: BranchName)
    requires HasHead(repo, "main") && HasHead(repo, b)
    requires !LegacyAnalyzer.IsProtected(b) && PyText.PlainName(b)
    requires GitHandler.UpstreamStatus(repo, b) != Success(GitHandler.Gone)
    requires repo.mergeBase(Tip(repo, "main"), Tip(repo, b)) == Some(Tip(repo, b))
    requires repo.mergedListing("main") == RenderListing(entries)
    requires forall i :: 0 <= i < |entries| ==> PyText.PlainName(entries[i].name)
    requires forall i :: 0 <= i < |entries| && entries[i].name == b ==> entries[i].marker == OtherWorktree
    ensures LegacyAnalyzer.LegacyScan(repo, [b]) == Success([b])
    ensures Analyzer.Scan(repo, Config.DefaultProtected, Analyzer.BaseBranch(repo, Config.DefaultProtected), [b]) == Success([])
  {
    BuildGitHandler.AgreesWithSource(repo, b);
    DefaultBaseIsMain(repo);
    ListingParses(repo, "main", entries, b);
    assert [b][1..] == [];
    assert [b] + [] == [b];
  }

  /**
   * Where the two disagree, second case: without a `main` head the packaged analyzer
   * falls back to `master` and reports a branch merged into it, while the legacy
   * merge test answers false without `main`.
   */
  lemma MasterBaseDiverges(repo: Repo, b: BranchName)
    requires !HasHead(repo, "main") && HasHead(repo, "master") && HasHead(repo, b)
    requires !LegacyAnalyzer.IsProtected(b) && b != ""
    requires GitHandler.UpstreamStatus(repo, b) != Success(GitHandler.Gone)
    requires Analyzer.IsMerged(repo, "master", b)
    ensures Analyzer.BaseBranch(repo, Config.DefaultProtected) == Some("master")
    ensures Analyzer.Scan(repo, Config.DefaultProtected, Analyzer.BaseBranch(repo, Config.DefaultProtected), [b]) == Success([b])
    ensures LegacyAnalyzer.LegacyScan(repo, [b]) == Success([])
  {
    BuildGitHandler.AgreesWithSource(repo, b);
    assert Config.DefaultProtected[1..] == ["master", "dev", "develop"];
    assert [b][1..] == [];
    assert [b] + [] == [b];
  }

  /**
   * Where the two disagree: for a branch whose history is unrelated to main's, the
   * legacy scan fails with git's merge-base error, while the packaged scan goes on.
   */
  lemma UnrelatedHistoryDiverges(repo: Repo, b: BranchName)
    requires HasHead(repo, "main") && HasHead(repo, b)
    requires !LegacyAnalyzer.IsProtected(b)
    requires GitHandler.UpstreamStatus(repo, b) != Success(GitHandler.Gone)
    requires repo.mergeBase(Tip(repo, "main"), Tip(repo, b)).None?
    ensures LegacyAnalyzer.LegacyScan(repo, [b]) == Failure(NoMergeBase(Tip(repo, "main"), Tip(repo, b)))
    ensures Analyzer.Scan(repo, Config.DefaultProtected, Analyzer.BaseBranch(repo, Config.DefaultProtected), [b]).Success?
  {
    BuildGitHandler.AgreesWithSource(repo, b);
    assert [b][1..] == [];
  }
}
