/**
 * The All-K-Nearest-Neighbours benchmark that times scikit-learn's
 * `NearestNeighbors` (methods/scikit/allknn.py): reading the options
 * string, choosing how many neighbours to ask for, handing the result to
 * the queue of the timeout wrapper, and classifying it in `RunMetrics`.
 *
 * The option parsing is modelled as the source has it, quirks included:
 * the `-t` and `--metric` patterns use `\s+`, the rejection messages of
 * lines 82, 101 and 112 call `.group(1)` on a value that is no longer a
 * match object and so raise `AttributeError`, the tree-type guard is an
 * `or` of `!=` tests, and the leaf-size guard compares a digit run with 0.
 */
module AllKnn {
  import opened PyRegex

  // The seven patterns of lines 65-74.
  const KPattern := Pattern("-k ", Digit)
  const LeafSizePattern := Pattern("-l ", Digit)
  const RadiusPattern := Pattern("--radius ", Digit)
  const TreeTypePattern := Pattern("-t ", Space)
  const MetricPattern := Pattern("--metric ", Space)
  const PPattern := Pattern("-p ", Digit)
  const NJobsPattern := Pattern("--n_jobs ", Digit)

  // The defaults of lines 88, 97, 105, 106, 108 and 116.
  const DefaultLeafSize := 20
  const DefaultTreeType := "kd_tree"
  const DefaultRadius: real := 1.0
  const DefaultP := 2
  const DefaultMetric := "minkowski"
  const DefaultNJobs := 1

  /** The list of line 111; "minkowski" is not in it. */
  const AcceptedMetrics: seq<string> := ["cityblock", "cosine", "euclidean", "l1", "l2", "manhattan"]

  /** The arguments handed to `NearestNeighbors` (lines 120-126). */
  datatype Config = Config(k: int, leafSize: int, treeType: string, radius: real,
                           metric: string, p: int, nJobs: int)

  /** A rejection that ends the worker cleanly: it logs, puts -1 on the queue and returns -1. */
  datatype Failure = MissingK | NegativeLeafSize

  /** A rejection whose log message raises `AttributeError` before anything is put on the queue. */
  datatype Crash = InvalidK | InvalidTreeType | InvalidMetric

  datatype Outcome = Built(config: Config) | Fail(failure: Failure) | Raised(crash: Crash)

  /** The condition of line 100, as written. */
  predicate TreeTypeGuard(t: string) {
    t != "auto" || t != "ball_tree" || t != "kd_tree" || t != "brute"
  }

  /** `default if not m else int(m.group(1))`: the default when nothing matched, a non-negative value otherwise. */
  function IntGroupOr(m: Option<Match>, default: int): (r: int)
    requires m.Some? ==> AllDigits(m.value.group)
    ensures m.None? ==> r == default
    ensures m.Some? ==> 0 <= r < Pow10(|m.value.group|)
  {
    if m.None? then default
    else
      IntOfDigitsBounds(m.value.group);
      IntOfDigits(m.value.group)
  }

  /** `default if not m else float(m.group(1))`, for a digit run that `float` reads exactly. */
  function RealGroupOr(m: Option<Match>, default: real): (r: real)
    requires m.Some? ==> AllDigits(m.value.group)
    ensures m.None? ==> r == default
    ensures m.Some? ==> r == IntGroupOr(m, 0) as real && 0.0 <= r
  {
    if m.None? then default
    else
      IntOfDigitsBounds(m.value.group);
      IntOfDigits(m.value.group) as real
  }

  /**
   * Lines 65-116: the options string and the number of reference rows give
   * the arguments of the search, or the rejection that stops the worker.
   */
  function Parse(options: string, rows: nat): (r: Outcome)
    ensures r.Built? ==> 1 <= r.config.k <= rows
  {
    // Every pattern is searched before any check (lines 65-74).
    var kMatch := Search(options, KPattern);
    var leafSizeMatch := Search(options, LeafSizePattern);
    var radiusMatch := Search(options, RadiusPattern);
    var treeTypeMatch := Search(options, TreeTypePattern);
    var metricMatch := Search(options, MetricPattern);
    var pMatch := Search(options, PPattern);
    var nJobsMatch := Search(options, NJobsPattern);
    if kMatch.None? then
      Fail(MissingK)
    else
      var k := IntOfDigits(kMatch.value.group);
      if k < 1 || k > rows then
        Raised(InvalidK)
      else if leafSizeMatch.Some? && IntOfDigits(leafSizeMatch.value.group) < 0 then
        Fail(NegativeLeafSize)
      else
        var leafSize := IntGroupOr(leafSizeMatch, DefaultLeafSize);
        // The truthiness test of line 98 on the capture always holds: `\s+` captures at least one character.
        if treeTypeMatch.Some? && TreeTypeGuard(treeTypeMatch.value.group) then
          Raised(InvalidTreeType)
        else
          var treeType := match treeTypeMatch case None => DefaultTreeType case Some(m) => m.group;
          var radius := RealGroupOr(radiusMatch, DefaultRadius);
          var p := IntGroupOr(pMatch, DefaultP);
          // As on line 98, the truthiness test of line 109 always holds.
          if metricMatch.Some? && metricMatch.value.group !in AcceptedMetrics then
            Raised(InvalidMetric)
          else
            var metric := match metricMatch case None => DefaultMetric case Some(m) => m.group;
            var nJobs := IntGroupOr(nJobsMatch, DefaultNJobs);
            Built(Config(k, leafSize, treeType, radius, metric, p, nJobs))
  }

  /** The neighbour search of lines 127-135: the model's arguments, how many neighbours each query asks for, and whether the queries are the reference points themselves. */
  datatype Request = Request(config: Config, neighbours: int, queryIsReference: bool)

  /**
   * With two dataset files the second holds the queries and each asks for
   * `k` neighbours; otherwise every reference point is its own query and
   * asks for `k + 1`, because it comes back as its own nearest neighbour.
   */
  function SearchRequest(c: Config, numFiles: nat): (req: Request)
    ensures req.config == c
    ensures req.queryIsReference <==> numFiles != 2
    ensures req.neighbours - (if req.queryIsReference then 1 else 0) == c.k
  {
    if numFiles == 2 then Request(c, c.k, false) else Request(c, c.k + 1, true)
  }

  /** The elapsed time measured by the timer: never negative. */
  type Seconds = r: real | r >= 0.0

  /** How the worker `RunAllKnnScikit` ends: it returns a value, or an exception escapes it. */
  datatype WorkerEnd = Returned(value: real) | Threw(crash: Crash)

  /**
   * Lines 50-142 after the datasets are loaded. `libraryThrows` says whether
   * scikit-learn raises for a request (lines 118-138); `elapsed` is the time
   * the timer measured.
   */
  function Worker(options: string, rows: nat, numFiles: nat,
                  libraryThrows: Request -> bool, elapsed: Seconds): (e: WorkerEnd)
    ensures e.Threw? <==> Parse(options, rows).Raised?
    ensures e.Returned? ==>
      e.value == -1.0 || (e.value == elapsed && Parse(options, rows).Built?)
  {
    match Parse(options, rows)
    case Fail(_) => Returned(-1.0)
    case Raised(crash) => Threw(crash)
    case Built(c) => if libraryThrows(SearchRequest(c, numFiles)) then Returned(-1.0) else Returned(elapsed)
  }

  /** What the worker puts on the queue: the value it returns, and nothing when it raises. */
  function Delivered(e: WorkerEnd): (s: seq<real>)
    ensures |s| <= 1
    ensures |s| == 1 <==> e.Returned?
    ensures e.Returned? ==> s[0] == e.value
  {
    match e
    case Returned(v) => [v]
    case Threw(_) => []
  }

  /** The result of `RunMetrics`: the negative value itself, or the map `{'Runtime': seconds}`. */
  datatype Metrics = Negative(result: real) | Runtime(seconds: real)

  /** Lines 157-161: a negative result is passed on unchanged, any other is wrapped as a runtime. */
  function RunMetrics(results: real): (m: Metrics)
    ensures m.Negative? <==> results < 0.0
    ensures m == Negative(results) || m == Runtime(results)
  {
    if results < 0.0 then Negative(results) else Runtime(results)
  }

  /** The queue `q` that the worker hands its result to. */
  class ResultQueue {
    var items: seq<real>

    constructor ()
      ensures items == []
    {
      items := [];
    }

    method Put(v: real)
      modifies this
      ensures items == old(items) + [v]
    {
      items := items + [v];
    }
  }

  /**
   * The worker of lines 50-142, step by step as the source runs it: it
   * rebinds each option, puts its result on `q` before every return, and
   * leaves `q` untouched when an exception escapes.
   */
  method RunAllKnnScikit(q: ResultQueue, options: string, rows: nat, numFiles: nat,
                         libraryThrows: Request -> bool, elapsed: Seconds) returns (e: WorkerEnd)
    modifies q
    ensures e == Worker(options, rows, numFiles, libraryThrows, elapsed)
    ensures q.items == old(q.items) + Delivered(e)
  {
    var kMatch := Search(options, KPattern);
    var leafSizeMatch := Search(options, LeafSizePattern);
    var radiusMatch := Search(options, RadiusPattern);
    var treeTypeMatch := Search(options, TreeTypePattern);
    var metricMatch := Search(options, MetricPattern);
    var pMatch := Search(options, PPattern);
    var nJobsMatch := Search(options, NJobsPattern);

    if kMatch.None? {
      q.Put(-1.0);
      return Returned(-1.0);
    }
    var k := IntOfDigits(kMatch.value.group);
    if k < 1 || k > rows {
      // The message calls `k.group(1)` on an int.
      return Threw(InvalidK);
    }

    var leafSize: int;
    if leafSizeMatch.None? {
      leafSize := DefaultLeafSize;
    } else if IntOfDigits(leafSizeMatch.value.group) < 0 {
      q.Put(-1.0);
      return Returned(-1.0);
    } else {
      leafSize := IntOfDigits(leafSizeMatch.value.group);
    }

    var treeType: string;
    if treeTypeMatch.None? {
      treeType := DefaultTreeType;
    } else {
      treeType := treeTypeMatch.value.group;
      if TreeTypeGuard(treeType) {
        // The message calls `tree_type.group(1)` on a str.
        return Threw(InvalidTreeType);
      }
    }

    var radius := RealGroupOr(radiusMatch, DefaultRadius);
    var p := IntGroupOr(pMatch, DefaultP);

    var metric: string;
    if metricMatch.None? {
      metric := DefaultMetric;
    } else {
      metric := metricMatch.value.group;
      if metric !in AcceptedMetrics {
        // The message calls `metric.group(1)` on a str.
        return Threw(InvalidMetric);
      }
    }
    var nJobs := IntGroupOr(nJobsMatch, DefaultNJobs);

    var config := Config(k, leafSize, treeType, radius, metric, p, nJobs);
    assert Parse(options, rows) == Built(config);
    if libraryThrows(SearchRequest(config, numFiles)) {
      q.Put(-1.0);
      return Returned(-1.0);
    }
    q.Put(elapsed);
    return Returned(elapsed);
  }
}
