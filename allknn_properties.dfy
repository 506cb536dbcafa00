/**
 * What the option parsing, the neighbour count and the result
 * classification of methods/scikit/allknn.py guarantee, stated in terms of
 * the regular-expression semantics of PyRegex rather than of the functions
 * that compute them.
 */
module AllKnnProperties {
  import opened PyRegex
  import opened AllKnn

  /** `-k` is matched and its value passes the range check of line 81. */
  ghost predicate KAccepted(options: string, rows: nat) {
    exists m :: IsSearchResult(options, KPattern, m) && AllDigits(m.group)
      && 1 <= IntOfDigits(m.group) <= rows
  }

  /** No `\s+` capture is one of the accepted metric names. */
  lemma WhitespaceIsNoMetric(w: string)
    requires |w| > 0 && AllInClass(Space, w)
    ensures w !in AcceptedMetrics
  {
    assert IsUnicodeSpace(w[0]);
  }

  /** The `or` of `!=` tests on line 100 holds for every string, the four tree names included. */
  lemma TreeTypeGuardAlwaysHolds(t: string)
    ensures TreeTypeGuard(t)
  {
  }

  /** `-k` decides first: a match is used exactly when its value is in range. */
  lemma KAcceptedBySearch(options: string, rows: nat)
    ensures KAccepted(options, rows) <==>
      Search(options, KPattern).Some? && 1 <= IntOfDigits(Search(options, KPattern).value.group) <= rows
  {
    if KAccepted(options, rows) {
      var m :| IsSearchResult(options, KPattern, m) && AllDigits(m.group) && 1 <= IntOfDigits(m.group) <= rows;
      SearchUnique(options, KPattern, m);
    }
  }

  /**
   * The checks run in the order k, leaf size, tree type, metric, and the
   * first that fails decides the outcome: a missing `-k` is the clean
   * failure whatever else the string holds, an out-of-range `-k` raises,
   * the leaf-size check never fires, any `-t` match raises, and any
   * `--metric` match raises. A model is built exactly when `-k` is in range
   * and neither `-t` nor `--metric` matches.
   */
  lemma ParseClassification(options: string, rows: nat)
    ensures Parse(options, rows) == Fail(MissingK) <==> !Present(options, KPattern)
    ensures Parse(options, rows) == Raised(InvalidK) <==>
      Present(options, KPattern) && !KAccepted(options, rows)
    ensures Parse(options, rows) != Fail(NegativeLeafSize)
    ensures Parse(options, rows) == Raised(InvalidTreeType) <==>
      KAccepted(options, rows) && Present(options, TreeTypePattern)
    ensures Parse(options, rows) == Raised(InvalidMetric) <==>
      KAccepted(options, rows) && !Present(options, TreeTypePattern) && Present(options, MetricPattern)
    ensures Parse(options, rows).Built? <==>
      KAccepted(options, rows) && !Present(options, TreeTypePattern) && !Present(options, MetricPattern)
  {
    KAcceptedBySearch(options, rows);
    var leafSizeMatch := Search(options, LeafSizePattern);
    if leafSizeMatch.Some? {
      IntOfDigitsBounds(leafSizeMatch.value.group);
    }
    var treeTypeMatch := Search(options, TreeTypePattern);
    if treeTypeMatch.Some? {
      TreeTypeGuardAlwaysHolds(treeTypeMatch.value.group);
    }
    var metricMatch := Search(options, MetricPattern);
    if metricMatch.Some? {
      WhitespaceIsNoMetric(metricMatch.value.group);
    }
  }

  /**
   * Every model that is built has the values the options supply, and the
   * defaults where a pattern does not match. The tree type and the metric
   * are always the defaults: a matched `-t` or `--metric` never gets this far.
   */
  lemma BuiltFields(options: string, rows: nat, c: Config)
    requires Parse(options, rows) == Built(c)
    ensures 1 <= c.k <= rows
    ensures forall m :: IsSearchResult(options, KPattern, m) ==> AllDigits(m.group) && c.k == IntOfDigits(m.group)
    ensures c.leafSize >= 0
    ensures forall m :: IsSearchResult(options, LeafSizePattern, m) ==>
      AllDigits(m.group) && c.leafSize == IntOfDigits(m.group)
    ensures !Present(options, LeafSizePattern) ==> c.leafSize == DefaultLeafSize
    ensures forall m :: IsSearchResult(options, RadiusPattern, m) ==>
      AllDigits(m.group) && c.radius == IntOfDigits(m.group) as real
    ensures !Present(options, RadiusPattern) ==> c.radius == DefaultRadius
    ensures forall m :: IsSearchResult(options, PPattern, m) ==> AllDigits(m.group) && c.p == IntOfDigits(m.group)
    ensures !Present(options, PPattern) ==> c.p == DefaultP
    ensures forall m :: IsSearchResult(options, NJobsPattern, m) ==>
      AllDigits(m.group) && c.nJobs == IntOfDigits(m.group)
    ensures !Present(options, NJobsPattern) ==> c.nJobs == DefaultNJobs
    ensures c.treeType == DefaultTreeType && c.metric == DefaultMetric
  {
    ParseClassification(options, rows);
    forall m | IsSearchResult(options, KPattern, m)
      ensures AllDigits(m.group) && c.k == IntOfDigits(m.group)
    {
      SearchUnique(options, KPattern, m);
    }
    forall m | IsSearchResult(options, LeafSizePattern, m)
      ensures AllDigits(m.group) && c.leafSize == IntOfDigits(m.group)
    {
      SearchUnique(options, LeafSizePattern, m);
    }
    var leafSizeMatch := Search(options, LeafSizePattern);
    if leafSizeMatch.Some? {
      IntOfDigitsBounds(leafSizeMatch.value.group);
    }
    forall m | IsSearchResult(options, RadiusPattern, m)
      ensures AllDigits(m.group) && c.radius == IntOfDigits(m.group) as real
    {
      SearchUnique(options, RadiusPattern, m);
    }
    forall m | IsSearchResult(options, PPattern, m)
      ensures AllDigits(m.group) && c.p == IntOfDigits(m.group)
    {
      SearchUnique(options, PPattern, m);
    }
    forall m | IsSearchResult(options, NJobsPattern, m)
      ensures AllDigits(m.group) && c.nJobs == IntOfDigits(m.group)
    {
      SearchUnique(options, NJobsPattern, m);
    }
  }

  /**
   * After the self-neighbour is dropped every query has exactly `k`
   * neighbours; with one dataset file the search asks for one more than
   * `k`, which exceeds the reference rows exactly when `k` is the number of rows.
   */
  lemma SearchWidth(options: string, rows: nat, numFiles: nat, c: Config)
    requires Parse(options, rows) == Built(c)
    ensures numFiles == 2 ==>
      SearchRequest(c, numFiles).neighbours == c.k && 1 <= SearchRequest(c, numFiles).neighbours <= rows
    ensures numFiles != 2 ==>
      SearchRequest(c, numFiles).neighbours == c.k + 1 && 2 <= SearchRequest(c, numFiles).neighbours <= rows + 1
      && (SearchRequest(c, numFiles).neighbours > rows <==> c.k == rows)
  {
  }

  /**
   * The worker raises exactly when the parse raises, puts one value on the
   * queue otherwise, and `RunMetrics` turns that value into the runtime
   * exactly when a model was built and the library did not raise; every
   * other returned value stays the sentinel -1.
   */
  lemma WorkerMetrics(options: string, rows: nat, numFiles: nat,
                      libraryThrows: Request -> bool, elapsed: Seconds)
    ensures Worker(options, rows, numFiles, libraryThrows, elapsed).Threw? <==> Parse(options, rows).Raised?
    ensures Parse(options, rows).Raised? ==>
      Worker(options, rows, numFiles, libraryThrows, elapsed) == Threw(Parse(options, rows).crash)
    ensures |Delivered(Worker(options, rows, numFiles, libraryThrows, elapsed))| ==
      (if Parse(options, rows).Raised? then 0 else 1)
    ensures Worker(options, rows, numFiles, libraryThrows, elapsed).Returned? ==>
      var v := Worker(options, rows, numFiles, libraryThrows, elapsed).value;
      var ran := Parse(options, rows).Built? && !libraryThrows(SearchRequest(Parse(options, rows).config, numFiles));
      (ran ==> RunMetrics(v) == Runtime(elapsed)) && (!ran ==> RunMetrics(v) == Negative(-1.0))
  {
  }

  /** `o` is what `re.search(p, s)` returns: `None` when nothing matches, the described match otherwise. */
  ghost predicate SearchesTo(s: string, p: Pattern, o: Option<Match>) {
    match o
    case None => !Present(s, p)
    case Some(m) => IsSearchResult(s, p, m)
  }

  /**
   * The converse of BuiltFields: when `-k` matches in range and neither
   * `-t` nor `--metric` matches, the model is built from whatever the other
   * searches return, each field falling back to its default.
   */
  lemma ParseOfSearches(options: string, rows: nat, k: Match,
                        leafSize: Option<Match>, radius: Option<Match>, p: Option<Match>, nJobs: Option<Match>)
    requires IsSearchResult(options, KPattern, k)
    requires AllDigits(k.group) && 1 <= IntOfDigits(k.group) <= rows
    requires SearchesTo(options, LeafSizePattern, leafSize) && SearchesTo(options, RadiusPattern, radius)
    requires SearchesTo(options, PPattern, p) && SearchesTo(options, NJobsPattern, nJobs)
    requires !Present(options, TreeTypePattern) && !Present(options, MetricPattern)
    ensures Parse(options, rows) == Built(Config(IntOfDigits(k.group), IntGroupOr(leafSize, DefaultLeafSize),
                                                  DefaultTreeType, RealGroupOr(radius, DefaultRadius),
                                                  DefaultMetric, IntGroupOr(p, DefaultP), IntGroupOr(nJobs, DefaultNJobs)))
  {
    SearchUnique(options, KPattern, k);
    if leafSize.Some? {
      SearchUnique(options, LeafSizePattern, leafSize.value);
      IntOfDigitsBounds(leafSize.value.group);
    }
    if radius.Some? {
      SearchUnique(options, RadiusPattern, radius.value);
    }
    if p.Some? {
      SearchUnique(options, PPattern, p.value);
    }
    if nJobs.Some? {
      SearchUnique(options, NJobsPattern, nJobs.value);
    }
  }
}
