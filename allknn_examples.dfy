/**
 * Option strings worked through the model of methods/scikit/allknn.py.
 * Several of them show where the parser departs from what its messages
 * suggest: a `-t` or `--metric` followed by a name is not matched at all,
 * a negative leaf size is not matched, and an out-of-range `-k` raises.
 */
module AllKnnExamples {
  import opened PyRegex
  import opened AllKnn
  import opened AllKnnProperties

  const OnlyK := "-k 3"
  const LeafAndP := "-k 5 -l 30 -p 1"
  const RadiusGiven := "-k 5 --radius 2"
  const NJobsGiven := "-k 5 --n_jobs 4"
  const LeadingZeros := "-k 007"
  const NonDigitFirst := "-k x -k 4"
  const TreeName := "-k 3 -t brute"
  const TreeWhitespace := "-k 3 -t  auto"
  const MetricName := "-k 3 --metric l2"
  const MinusOneLeafSize := "-k 3 -l -1"
  const KZero := "-k 0"
  const KTooLarge := "-k 11"
  const NoK := "-l 5 -p 1 --metric  "

  /** `m` is the `re.search` result when its match sits where it says and no earlier index can begin one. */
  lemma Found(s: string, p: Pattern, m: Match)
    requires |p.prefix| >= 3
    requires m.start + |p.prefix| + |m.group| <= |s| && |m.group| > 0
    requires forall t :: 0 <= t < |p.prefix| ==> s[m.start + t] == p.prefix[t]
    requires forall t :: 0 <= t < |m.group| ==> s[m.start + |p.prefix| + t] == m.group[t]
    requires AllInClass(p.cls, m.group)
    requires m.start + |p.prefix| + |m.group| == |s| || !InClass(p.cls, s[m.start + |p.prefix| + |m.group|])
    requires forall i :: 0 <= i < m.start ==> RuledOut(s, p, i)
    ensures IsSearchResult(s, p, m)
  {
    assert s[m.start + |p.prefix|] == m.group[0];
    MatchesAtByChars(s, p, m.start);
    CapturesByChars(s, p, m);
    NoMatchBelow(s, p, m.start);
  }

  /** None of the six patterns besides `-k` matches `s`. */
  ghost predicate OnlyKOption(s: string) {
    !Present(s, LeafSizePattern) && !Present(s, RadiusPattern) && !Present(s, TreeTypePattern)
    && !Present(s, MetricPattern) && !Present(s, PPattern) && !Present(s, NJobsPattern)
  }

  /** Every index of `s` is ruled out for each of the six patterns besides `-k`. */
  lemma OnlyKOptionWhenRuledOut(s: string)
    requires forall i :: 0 <= i < |s| ==> RuledOut(s, LeafSizePattern, i)
    requires forall i :: 0 <= i < |s| ==> RuledOut(s, RadiusPattern, i)
    requires forall i :: 0 <= i < |s| ==> RuledOut(s, TreeTypePattern, i)
    requires forall i :: 0 <= i < |s| ==> RuledOut(s, MetricPattern, i)
    requires forall i :: 0 <= i < |s| ==> RuledOut(s, PPattern, i)
    requires forall i :: 0 <= i < |s| ==> RuledOut(s, NJobsPattern, i)
    ensures OnlyKOption(s)
  {
    AbsentWhenRuledOut(s, LeafSizePattern);
    AbsentWhenRuledOut(s, RadiusPattern);
    AbsentWhenRuledOut(s, TreeTypePattern);
    AbsentWhenRuledOut(s, MetricPattern);
    AbsentWhenRuledOut(s, PPattern);
    AbsentWhenRuledOut(s, NJobsPattern);
  }

  /** Only `-k` given: every other field takes its default. */
  lemma ExampleDefaults()
    ensures Parse(OnlyK, 10) == Built(Config(3, 20, "kd_tree", 1.0, "minkowski", 2, 1))
  {
    assert OnlyKOption(OnlyK) by { OnlyKOptionWhenRuledOut(OnlyK); }
    Found(OnlyK, KPattern, Match(0, "3"));
    assert IntOfDigits("3") == 3;
    ParseOfSearches(OnlyK, 10, Match(0, "3"), None, None, None, None);
  }

  // What each search returns on LeafAndP, one lemma each so that every proof stays small.
  lemma LeafAndPNoOthers()
    ensures !Present(LeafAndP, RadiusPattern) && !Present(LeafAndP, TreeTypePattern)
    ensures !Present(LeafAndP, MetricPattern) && !Present(LeafAndP, NJobsPattern)
  {
    AbsentWhenRuledOut(LeafAndP, RadiusPattern);
    AbsentWhenRuledOut(LeafAndP, TreeTypePattern);
    AbsentWhenRuledOut(LeafAndP, MetricPattern);
    AbsentWhenRuledOut(LeafAndP, NJobsPattern);
  }

  lemma LeafAndPK()
    ensures IsSearchResult(LeafAndP, KPattern, Match(0, "5"))
  {
    Found(LeafAndP, KPattern, Match(0, "5"));
  }

  lemma LeafAndPLeafSize()
    ensures IsSearchResult(LeafAndP, LeafSizePattern, Match(5, "30"))
  {
    Found(LeafAndP, LeafSizePattern, Match(5, "30"));
  }

  lemma LeafAndPP()
    ensures IsSearchResult(LeafAndP, PPattern, Match(11, "1"))
  {
    Found(LeafAndP, PPattern, Match(11, "1"));
  }

  lemma LeafAndPValues()
    ensures IntOfDigits("5") == 5 && IntOfDigits("30") == 30 && IntOfDigits("1") == 1
  {
    assert IntOfDigits("3") == 3;
    IntOfDigitsSnoc("3", '0');
    assert "3" + ['0'] == "30";
  }

  /** `-l` and `-p` supplied: those fields take the values of their digit runs. */
  lemma ExampleLeafSizeAndP()
    ensures Parse(LeafAndP, 10) == Built(Config(5, 30, "kd_tree", 1.0, "minkowski", 1, 1))
  {
    var s := LeafAndP;
    LeafAndPNoOthers();
    LeafAndPK();
    LeafAndPLeafSize();
    LeafAndPP();
    LeafAndPValues();
    ParseOfSearches(s, 10, Match(0, "5"), Some(Match(5, "30")), None, Some(Match(11, "1")), None);
  }

  // What each search returns on RadiusGiven, one lemma each so that every proof stays small.
  lemma RadiusGivenNoOthers()
    ensures !Present(RadiusGiven, LeafSizePattern) && !Present(RadiusGiven, TreeTypePattern)
    ensures !Present(RadiusGiven, MetricPattern) && !Present(RadiusGiven, PPattern)
    ensures !Present(RadiusGiven, NJobsPattern)
  {
    AbsentWhenRuledOut(RadiusGiven, LeafSizePattern);
    AbsentWhenRuledOut(RadiusGiven, TreeTypePattern);
    AbsentWhenRuledOut(RadiusGiven, MetricPattern);
    AbsentWhenRuledOut(RadiusGiven, PPattern);
    AbsentWhenRuledOut(RadiusGiven, NJobsPattern);
  }

  lemma RadiusGivenRadius()
    ensures IsSearchResult(RadiusGiven, RadiusPattern, Match(5, "2"))
  {
    Found(RadiusGiven, RadiusPattern, Match(5, "2"));
  }

  /** `--radius` supplied: the digit run becomes a float. */
  lemma ExampleRadius()
    ensures Parse(RadiusGiven, 10) == Built(Config(5, 20, "kd_tree", 2.0, "minkowski", 2, 1))
  {
    RadiusGivenNoOthers();
    Found(RadiusGiven, KPattern, Match(0, "5"));
    RadiusGivenRadius();
    assert IntOfDigits("5") == 5 && IntOfDigits("2") == 2;
    ParseOfSearches(RadiusGiven, 10, Match(0, "5"), None, Some(Match(5, "2")), None, None);
  }

  // What each search returns on NJobsGiven, one lemma each so that every proof stays small.
  lemma NJobsGivenNoOthers()
    ensures !Present(NJobsGiven, LeafSizePattern) && !Present(NJobsGiven, RadiusPattern)
    ensures !Present(NJobsGiven, TreeTypePattern) && !Present(NJobsGiven, MetricPattern)
    ensures !Present(NJobsGiven, PPattern)
  {
    AbsentWhenRuledOut(NJobsGiven, LeafSizePattern);
    AbsentWhenRuledOut(NJobsGiven, RadiusPattern);
    AbsentWhenRuledOut(NJobsGiven, TreeTypePattern);
    AbsentWhenRuledOut(NJobsGiven, MetricPattern);
    AbsentWhenRuledOut(NJobsGiven, PPattern);
  }

  lemma NJobsGivenNJobs()
    ensures IsSearchResult(NJobsGiven, NJobsPattern, Match(5, "4"))
  {
    Found(NJobsGiven, NJobsPattern, Match(5, "4"));
  }

  /** `--n_jobs` supplied: the job count takes the value of its digit run. */
  lemma ExampleNJobs()
    ensures Parse(NJobsGiven, 10) == Built(Config(5, 20, "kd_tree", 1.0, "minkowski", 2, 4))
  {
    NJobsGivenNoOthers();
    Found(NJobsGiven, KPattern, Match(0, "5"));
    NJobsGivenNJobs();
    assert IntOfDigits("5") == 5 && IntOfDigits("4") == 4;
    ParseOfSearches(NJobsGiven, 10, Match(0, "5"), None, None, None, Some(Match(5, "4")));
  }

  /** `-k` with leading zeros: `int()` drops them. */
  lemma ExampleLeadingZeros()
    ensures Parse(LeadingZeros, 10) == Built(Config(7, 20, "kd_tree", 1.0, "minkowski", 2, 1))
  {
    assert OnlyKOption(LeadingZeros) by { OnlyKOptionWhenRuledOut(LeadingZeros); }
    Found(LeadingZeros, KPattern, Match(0, "007"));
    assert IntOfDigits("7") == 7;
    IntOfLeadingZero("7");
    IntOfLeadingZero("07");
    assert "0" + "7" == "07" && "0" + "07" == "007";
    ParseOfSearches(LeadingZeros, 10, Match(0, "007"), None, None, None, None);
  }

  /** The search skips a `-k ` that no digit follows and takes the next one. */
  lemma ExampleFirstDigitRun()
    ensures Parse(NonDigitFirst, 10) == Built(Config(4, 20, "kd_tree", 1.0, "minkowski", 2, 1))
  {
    assert OnlyKOption(NonDigitFirst) by { OnlyKOptionWhenRuledOut(NonDigitFirst); }
    Found(NonDigitFirst, KPattern, Match(5, "4"));
    assert IntOfDigits("4") == 4;
    ParseOfSearches(NonDigitFirst, 10, Match(5, "4"), None, None, None, None);
  }

  // Proved apart from the `-k` search so that each proof stays small.
  lemma TreeNameOnlyK()
    ensures OnlyKOption(TreeName)
  {
    OnlyKOptionWhenRuledOut(TreeName);
  }

  /** `-t` followed by a tree name does not match `-t (\s+)`: the option is ignored. */
  lemma ExampleTreeNameIgnored()
    ensures Parse(TreeName, 10) == Built(Config(3, 20, "kd_tree", 1.0, "minkowski", 2, 1))
  {
    TreeNameOnlyK();
    Found(TreeName, KPattern, Match(0, "3"));
    assert IntOfDigits("3") == 3;
    ParseOfSearches(TreeName, 10, Match(0, "3"), None, None, None, None);
  }

  // Proved apart so that each proof stays small.
  lemma TreeWhitespaceK()
    ensures IsSearchResult(TreeWhitespace, KPattern, Match(0, "3"))
  {
    Found(TreeWhitespace, KPattern, Match(0, "3"));
  }

  /** `-t` followed by whitespace matches, and the guard of line 100 then raises. */
  lemma ExampleWhitespaceTreeRaises()
    ensures Parse(TreeWhitespace, 10) == Raised(InvalidTreeType)
  {
    var s := TreeWhitespace;
    TreeWhitespaceK();
    assert IntOfDigits("3") == 3;
    assert KAccepted(s, 10);
    MatchesAtByChars(s, TreeTypePattern, 5);
    ParseClassification(s, 10);
  }

  // Proved apart from the `-k` search so that each proof stays small.
  lemma MetricNameOnlyK()
    ensures OnlyKOption(MetricName)
  {
    OnlyKOptionWhenRuledOut(MetricName);
  }

  /** `--metric` followed by a name does not match `--metric (\s+)`: the metric stays minkowski. */
  lemma ExampleMetricNameIgnored()
    ensures Parse(MetricName, 10) == Built(Config(3, 20, "kd_tree", 1.0, "minkowski", 2, 1))
  {
    MetricNameOnlyK();
    Found(MetricName, KPattern, Match(0, "3"));
    assert IntOfDigits("3") == 3;
    ParseOfSearches(MetricName, 10, Match(0, "3"), None, None, None, None);
  }

  // Proved apart from the `-k` search so that each proof stays small.
  lemma MinusOneLeafSizeOnlyK()
    ensures OnlyKOption(MinusOneLeafSize)
  {
    OnlyKOptionWhenRuledOut(MinusOneLeafSize);
  }

  /** `-l -1` does not match `-l (\d+)`: the leaf size stays 20 rather than being rejected. */
  lemma ExampleNegativeLeafSizeIgnored()
    ensures Parse(MinusOneLeafSize, 10) == Built(Config(3, 20, "kd_tree", 1.0, "minkowski", 2, 1))
  {
    MinusOneLeafSizeOnlyK();
    Found(MinusOneLeafSize, KPattern, Match(0, "3"));
    assert IntOfDigits("3") == 3;
    ParseOfSearches(MinusOneLeafSize, 10, Match(0, "3"), None, None, None, None);
  }

  /** `-k 0` raises from the message of line 82. */
  lemma ExampleKZero()
    ensures Parse(KZero, 10) == Raised(InvalidK)
  {
    Found(KZero, KPattern, Match(0, "0"));
    assert IntOfDigits("0") == 0;
  }

  /** A `-k` above the row count raises from the message of line 82 as well. */
  lemma ExampleKTooLarge()
    ensures Parse(KTooLarge, 10) == Raised(InvalidK)
  {
    Found(KTooLarge, KPattern, Match(0, "11"));
    assert IntOfDigits("1") == 1;
    IntOfDigitsSnoc("1", '1');
    assert "1" + ['1'] == "11";
  }

  /** Without `-k` the worker fails cleanly whatever else is given, here a `--metric` that would raise. */
  lemma ExampleMissingK()
    ensures Parse(NoK, 10) == Fail(MissingK)
  {
    AbsentWhenRuledOut(NoK, KPattern);
    ParseClassification(NoK, 10);
  }

  /** With one dataset file `-k 3` asks for 4 neighbours per point; with two files, for 3. */
  lemma ExampleSearchWidth()
    ensures SearchRequest(Config(3, 20, "kd_tree", 1.0, "minkowski", 2, 1), 1).neighbours == 4
    ensures SearchRequest(Config(3, 20, "kd_tree", 1.0, "minkowski", 2, 1), 2).neighbours == 3
  {
  }
}
