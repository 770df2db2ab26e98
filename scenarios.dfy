/** Small repositories on which the scans are worked out by hand. */
module Scenarios {
  import opened Wrappers
  import opened Repository
  import PyText
  import Analyzer
  import LegacyAnalyzer
  import Strategies
  import GitHandler
  import BuildGitHandler

  const Listing: seq<Strategies.ListingEntry> :=
    [Strategies.ListingEntry(Strategies.Current, "main"), Strategies.ListingEntry(Strategies.Plain, "old-feature")]

  const ListingText: string := "* main\n  old-feature"

  lemma ListingTextRendered()
    ensures ListingText == Strategies.RenderListing(Listing)
  {
    var lines := Strategies.ListingLines(Listing);
    assert lines[0] == "* main";
    assert lines[1] == "  old-feature";
    assert lines == ["* main", "  old-feature"];
    assert lines[1..] == ["  old-feature"];
  }

  /**
   * main; feature-x, whose upstream was pruned; old-feature, merged into main with
   * its upstream still present; wip, neither merged nor abandoned.
   */
  function Sample(): Repo {
    Repo(
      [ Head("main", "c3", None),
        Head("feature-x", "c2", Some("origin/feature-x")),
        Head("old-feature", "c1", Some("origin/old-feature")),
        Head("wip", "c4", Some("origin/wip")) ],
      {"origin/old-feature", "origin/wip"},
      (a, b) => if b == "c4" then Some("c3") else if b == "c2" then Some("c0") else Some(b),
      base => ListingText)
  }

  lemma SampleHeads()
    ensures FindHead(Sample().heads, "main") == Success(Sample().heads[0])
    ensures FindHead(Sample().heads, "feature-x") == Success(Sample().heads[1])
    ensures FindHead(Sample().heads, "old-feature") == Success(Sample().heads[2])
    ensures FindHead(Sample().heads, "wip") == Success(Sample().heads[3])
  {
  }

  lemma SampleStatuses()
    ensures BuildGitHandler.UpstreamStatus(Sample(), "feature-x") == Success(GitHandler.Gone)
    ensures BuildGitHandler.UpstreamStatus(Sample(), "old-feature") == Success(GitHandler.Exists)
    ensures BuildGitHandler.UpstreamStatus(Sample(), "wip") == Success(GitHandler.Exists)
    ensures GitHandler.UpstreamStatus(Sample(), "feature-x") == Success(GitHandler.Gone)
    ensures GitHandler.UpstreamStatus(Sample(), "old-feature") == Success(GitHandler.Exists)
    ensures GitHandler.UpstreamStatus(Sample(), "wip") == Success(GitHandler.Exists)
  {
    SampleHeads();
  }

  lemma PlainSampleNames()
    ensures PyText.PlainName("main") && PyText.PlainName("old-feature") && PyText.PlainName("wip")
  {
  }

  lemma ListingIsPlain()
    ensures forall i :: 0 <= i < |Listing| ==> PyText.PlainName(Listing[i].name)
  {
    PlainSampleNames();
  }

  lemma SampleListingText()
    ensures Sample().mergedListing("main") == Strategies.RenderListing(Listing)
  {
    ListingTextRendered();
  }

  /** `git branch --merged main` lists old-feature. */
  lemma OldFeatureListed()
    ensures Analyzer.IsMerged(Sample(), "main", "old-feature")
  {
    PlainSampleNames();
    ListingIsPlain();
    SampleListingText();
    Strategies.ListingParses(Sample(), "main", Listing, "old-feature");
    assert Listing[1].name == "old-feature" && Listing[1].marker != Strategies.OtherWorktree;
  }

  /** A plain name that no entry of git's listing carries is not merged. */
  lemma UnlistedNotMerged(repo: Repo, base: BranchName, entries: seq<Strategies.ListingEntry>, b: BranchName)
    requires forall i :: 0 <= i < |entries| ==> PyText.PlainName(entries[i].name)
    requires PyText.PlainName(b)
    requires repo.mergedListing(base) == Strategies.RenderListing(entries)
    requires forall i :: 0 <= i < |entries| ==> entries[i].name != b
    ensures !Analyzer.IsMerged(repo, base, b)
  {
    Strategies.ListingParses(repo, base, entries, b);
  }

  lemma WipNotInListing()
    ensures forall i :: 0 <= i < |Listing| ==> Listing[i].name != "wip"
  {
    assert |Listing| == 2 && Listing[0].name == "main" && Listing[1].name == "old-feature";
  }

  /** `git branch --merged main` does not list wip. */
  lemma WipNotListed()
    ensures !Analyzer.IsMerged(Sample(), "main", "wip")
  {
    PlainSampleNames();
    ListingIsPlain();
    SampleListingText();
    WipNotInListing();
    UnlistedNotMerged(Sample(), "main", Listing, "wip");
  }

  /** A branch whose check finds it stale heads the scan of the branches it leads. */
  lemma ScanKeeps(repo: Repo, pb: seq<BranchName>, base: Option<BranchName>, b: BranchName, v: Analyzer.Verdict, rest: seq<BranchName>)
    requires Analyzer.Check(repo, pb, base, b) == Success(v) && Analyzer.IsStale(v) && b != ""
    ensures Analyzer.Scan(repo, pb, base, [b] + rest) == Prepend([b], Analyzer.Scan(repo, pb, base, rest))
  {
    assert ([b] + rest)[1..] == rest;
  }

  /** A branch checked without error to a verdict that is not stale leaves the scan of the rest as it is. */
  lemma ScanSkips(repo: Repo, pb: seq<BranchName>, base: Option<BranchName>, b: BranchName, v: Analyzer.Verdict, rest: seq<BranchName>)
    requires Analyzer.Check(repo, pb, base, b) == Success(v) && !Analyzer.IsStale(v)
    ensures Analyzer.Scan(repo, pb, base, [b] + rest) == Analyzer.Scan(repo, pb, base, rest)
  {
    assert ([b] + rest)[1..] == rest;
  }

  lemma LegacyKeeps(repo: Repo, b: BranchName, rest: seq<BranchName>)
    requires LegacyAnalyzer.Appended(repo, b) == Success(true)
    ensures LegacyAnalyzer.LegacyScan(repo, [b] + rest) == Prepend([b], LegacyAnalyzer.LegacyScan(repo, rest))
  {
    assert ([b] + rest)[1..] == rest;
  }

  lemma LegacySkips(repo: Repo, b: BranchName, rest: seq<BranchName>)
    requires LegacyAnalyzer.Appended(repo, b) == Success(false)
    ensures LegacyAnalyzer.LegacyScan(repo, [b] + rest) == LegacyAnalyzer.LegacyScan(repo, rest)
  {
    assert ([b] + rest)[1..] == rest;
  }

  lemma SampleVerdicts()
    ensures Analyzer.Check(Sample(), ["main", "master"], Some("main"), "main") == Success(Analyzer.ProtectedSkip)
    ensures Analyzer.Check(Sample(), ["main", "master"], Some("main"), "feature-x") == Success(Analyzer.UpstreamGone)
  {
    SampleStatuses();
    assert !Analyzer.IsProtected(["main", "master"], "feature-x");
  }

  /** The protected main is skipped, the branch whose upstream is gone is stale. */
  lemma ScenarioA()
    ensures Analyzer.Scan(Sample(), ["main", "master"], Some("main"), ["main", "feature-x"]) == Success(["feature-x"])
  {
    var repo, pb, base := Sample(), ["main", "master"], Some("main");
    SampleVerdicts();
    ScanKeeps(repo, pb, base, "feature-x", Analyzer.UpstreamGone, []);
    ScanSkips(repo, pb, base, "main", Analyzer.ProtectedSkip, ["feature-x"]);
    assert ["feature-x"] + [] == ["feature-x"];
    assert ["main"] + ["feature-x"] == ["main", "feature-x"];
  }

  lemma MergedVerdict(repo: Repo, pb: seq<BranchName>, base: BranchName, b: BranchName)
    requires !Analyzer.IsProtected(pb, b) && HasHead(repo, b)
    requires BuildGitHandler.UpstreamStatus(repo, b) == Success(GitHandler.Exists)
    requires Analyzer.IsMerged(repo, base, b)
    ensures Analyzer.Check(repo, pb, Some(base), b) == Success(Analyzer.MergedIntoBase)
  {
  }

  lemma UnmergedVerdict(repo: Repo, pb: seq<BranchName>, base: BranchName, b: BranchName)
    requires !Analyzer.IsProtected(pb, b) && HasHead(repo, b)
    requires BuildGitHandler.UpstreamStatus(repo, b) == Success(GitHandler.Exists)
    requires !Analyzer.IsMerged(repo, base, b)
    ensures Analyzer.Check(repo, pb, Some(base), b) == Success(Analyzer.NotStale)
  {
  }

  /** A merged branch whose upstream still exists is stale, by being listed as merged. */
  lemma ScenarioB()
    ensures Analyzer.Check(Sample(), ["main", "master"], Some("main"), "old-feature") == Success(Analyzer.MergedIntoBase)
  {
    var repo := Sample();
    SampleHeads();
    assert HasHead(repo, "old-feature");
    SampleStatuses();
    assert !Analyzer.IsProtected(["main", "master"], "old-feature");
    OldFeatureListed();
    MergedVerdict(repo, ["main", "master"], "main", "old-feature");
  }

  /** An unmerged branch with a live upstream is not stale. */
  lemma ScenarioC()
    ensures Analyzer.Check(Sample(), ["main", "master"], Some("main"), "wip") == Success(Analyzer.NotStale)
  {
    SampleHeads();
    SampleStatuses();
    WipNotListed();
    assert !Analyzer.IsProtected(["main", "master"], "wip");
    UnmergedVerdict(Sample(), ["main", "master"], "main", "wip");
  }

  /** The scan of a stale branch followed by one that is not. */
  lemma ScanStaleThenNot(repo: Repo, pb: seq<BranchName>, base: Option<BranchName>, c: BranchName, d: BranchName)
    requires Analyzer.Check(repo, pb, base, c) == Success(Analyzer.MergedIntoBase) && c != ""
    requires Analyzer.Check(repo, pb, base, d) == Success(Analyzer.NotStale)
    ensures Analyzer.Scan(repo, pb, base, [c, d]) == Success([c])
  {
    assert Analyzer.Scan(repo, pb, base, []) == Success([]);
    ScanSkips(repo, pb, base, d, Analyzer.NotStale, []);
    assert [d] + [] == [d];
    ScanKeeps(repo, pb, base, c, Analyzer.MergedIntoBase, [d]);
    assert [c] + [d] == [c, d];
    assert [c] + [] == [c];
  }

  /** A protected branch and then a pruned one, ahead of branches whose scan is known. */
  lemma ScanSkipThenStale(repo: Repo, pb: seq<BranchName>, base: Option<BranchName>, a: BranchName, b: BranchName, rest: seq<BranchName>, tail: seq<BranchName>)
    requires Analyzer.Check(repo, pb, base, a) == Success(Analyzer.ProtectedSkip)
    requires Analyzer.Check(repo, pb, base, b) == Success(Analyzer.UpstreamGone) && b != ""
    requires Analyzer.Scan(repo, pb, base, rest) == Success(tail)
    ensures Analyzer.Scan(repo, pb, base, [a, b] + rest) == Success([b] + tail)
  {
    ScanKeeps(repo, pb, base, b, Analyzer.UpstreamGone, rest);
    ScanSkips(repo, pb, base, a, Analyzer.ProtectedSkip, [b] + rest);
    assert [a] + ([b] + rest) == [a, b] + rest;
  }

  /** The scan of three branches of which only the first is stale. */
  lemma ScanFirstOfThree(repo: Repo, pb: seq<BranchName>, base: Option<BranchName>, a: BranchName, b: BranchName, c: BranchName)
    requires Analyzer.Check(repo, pb, base, a) == Success(Analyzer.UpstreamGone) && a != ""
    requires Analyzer.Check(repo, pb, base, b) == Success(Analyzer.NotStale)
    requires Analyzer.Check(repo, pb, base, c) == Success(Analyzer.NotStale)
    ensures Analyzer.Scan(repo, pb, base, [a, b, c]) == Success([a])
  {
    assert Analyzer.Scan(repo, pb, base, []) == Success([]);
    ScanSkips(repo, pb, base, c, Analyzer.NotStale, []);
    assert [c] + [] == [c];
    ScanSkips(repo, pb, base, b, Analyzer.NotStale, [c]);
    assert [b] + [c] == [b, c];
    ScanKeeps(repo, pb, base, a, Analyzer.UpstreamGone, [b, c]);
    assert [a] + [b, c] == [a, b, c];
    assert [a] + [] == [a];
  }

  lemma LegacyMiddleTwo(repo: Repo, a: BranchName, b: BranchName, c: BranchName, d: BranchName)
    requires LegacyAnalyzer.Appended(repo, a) == Success(false)
    requires LegacyAnalyzer.Appended(repo, b) == Success(true)
    requires LegacyAnalyzer.Appended(repo, c) == Success(true)
    requires LegacyAnalyzer.Appended(repo, d) == Success(false)
    ensures LegacyAnalyzer.LegacyScan(repo, [a, b, c, d]) == Success([b, c])
  {
    assert LegacyAnalyzer.LegacyScan(repo, []) == Success([]);
    LegacySkips(repo, d, []);
    assert [d] + [] == [d];
    LegacyKeeps(repo, c, [d]);
    assert [c] + [d] == [c, d];
    assert [c] + [] == [c];
    assert LegacyAnalyzer.LegacyScan(repo, [c, d]) == Success([c]);
    LegacyKeeps(repo, b, [c, d]);
    assert [b] + [c, d] == [b, c, d];
    assert [b] + [c] == [b, c];
    assert LegacyAnalyzer.LegacyScan(repo, [b, c, d]) == Success([b, c]);
    LegacySkips(repo, a, [b, c, d]);
    assert [a] + [b, c, d] == [a, b, c, d];
  }

  lemma SampleBaseMain()
    ensures Analyzer.BaseBranch(Sample(), ["main", "master"]) == Some("main")
  {
    SampleHeads();
    assert HasHead(Sample(), "main");
  }

  lemma SampleNoBase()
    ensures Analyzer.BaseBranch(Sample(), ["trunk"]) == None
  {
    assert !HasHead(Sample(), "trunk");
    assert ["trunk"][1..] == [];
  }

  lemma ScenarioTail()
    ensures Analyzer.Scan(Sample(), ["main", "master"], Some("main"), ["old-feature", "wip"]) == Success(["old-feature"])
  {
    ScenarioB();
    ScenarioC();
    ScanStaleThenNot(Sample(), ["main", "master"], Some("main"), "old-feature", "wip");
  }

  /** With main as base, the scan of all four branches finds feature-x and old-feature. */
  lemma ScenarioAll()
    ensures Analyzer.Scan(Sample(), ["main", "master"], Some("main"), ["main", "feature-x", "old-feature", "wip"])
      == Success(["feature-x", "old-feature"])
  {
    ScenarioTail();
    SampleVerdicts();
    ScanSkipThenStale(Sample(), ["main", "master"], Some("main"), "main", "feature-x", ["old-feature", "wip"], ["old-feature"]);
    assert ["main", "feature-x"] + ["old-feature", "wip"] == ["main", "feature-x", "old-feature", "wip"];
    assert ["feature-x"] + ["old-feature"] == ["feature-x", "old-feature"];
  }

  lemma NoBaseVerdicts()
    ensures Analyzer.Check(Sample(), ["trunk"], None, "feature-x") == Success(Analyzer.UpstreamGone)
    ensures Analyzer.Check(Sample(), ["trunk"], None, "old-feature") == Success(Analyzer.NotStale)
    ensures Analyzer.Check(Sample(), ["trunk"], None, "wip") == Success(Analyzer.NotStale)
  {
    SampleHeads();
    SampleStatuses();
    assert !Analyzer.IsProtected(["trunk"], "feature-x");
    assert !Analyzer.IsProtected(["trunk"], "old-feature");
    assert !Analyzer.IsProtected(["trunk"], "wip");
  }

  /** With no protected branch present there is no base, and only the pruned branch is stale. */
  lemma ScenarioNoBase()
    ensures Analyzer.Scan(Sample(), ["trunk"], None, ["feature-x", "old-feature", "wip"]) == Success(["feature-x"])
  {
    NoBaseVerdicts();
    ScanFirstOfThree(Sample(), ["trunk"], None, "feature-x", "old-feature", "wip");
  }

  lemma LegacyMain()
    ensures LegacyAnalyzer.Appended(Sample(), "main") == Success(false)
  {
  }

  lemma LegacyFeatureX()
    ensures LegacyAnalyzer.Appended(Sample(), "feature-x") == Success(true)
  {
    SampleStatuses();
    LegacyAnalyzer.GoneSkipsMergeTest(Sample(), Sample().mergeBase, "feature-x");
  }

  lemma LegacyOldFeature()
    ensures LegacyAnalyzer.Appended(Sample(), "old-feature") == Success(true)
  {
    SampleHeads();
    SampleStatuses();
    assert Sample().mergeBase("c3", "c1") == Some("c1");
  }

  lemma LegacyWip()
    ensures LegacyAnalyzer.Appended(Sample(), "wip") == Success(false)
  {
    SampleHeads();
    SampleStatuses();
    assert Sample().mergeBase("c3", "c4") == Some("c3");
  }

  /** The legacy scan, deciding by merge-bases, finds the same two stale branches. */
  lemma LegacyScenario()
    ensures LegacyAnalyzer.LegacyScan(Sample(), ["main", "feature-x", "old-feature", "wip"]) == Success(["feature-x", "old-feature"])
  {
    LegacyMain();
    LegacyFeatureX();
    LegacyOldFeature();
    LegacyWip();
    LegacyMiddleTwo(Sample(), "main", "feature-x", "old-feature", "wip");
  }
}
