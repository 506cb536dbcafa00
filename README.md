# All-k-nearest-neighbours benchmark with scikit-learn, modelled in Dafny

`methods/scikit/allknn.py` is the benchmark script that times
scikit-learn's `NearestNeighbors` on one or two CSV datasets. Its worker,
`RunAllKnnScikit`, does these steps in order:

1. it reads seven options out of a free-form options string with `re.search`;
2. it validates them;
3. it builds and fits the model;
4. it asks for `k` neighbours, or for `k + 1` when the reference points are their own queries;
5. it puts the elapsed time, or the sentinel `-1`, on a queue.

`RunMetrics` then turns a negative result into itself and any other result into the map `{'Runtime': seconds}`.

The project has four modules:

- `PyRegex` (`pyregex.dfy`) covers the part of Python that the parser relies on.
  - Patterns have the shape `prefix (C+)`, where C is `\d` or `\s`.
  - `re.search` is given twice: as a leftmost-match scan (`Search`) and as a description of the match it must return (`IsSearchResult`). The two are proved to agree.
  - `int()` on a digit run and `str()` on a natural number, with the round trip and the leading-zero law.
- `AllKnn` (`allknn.dfy`) covers the options, the outcome of parsing (`Parse`), the neighbour request (`SearchRequest`), `RunMetrics`, and the worker.
  - The worker is written twice: as a function (`Worker`), and as an imperative method (`RunAllKnnScikit`) that puts its result on a `ResultQueue`.
- `AllKnnProperties` (`allknn_properties.dfy`) states what parsing does in terms of the regular-expression description rather than the scan: which rejection fires, which field values a built model has, and how many neighbours are requested.
- `AllKnnExamples` (`allknn_examples.dfy`) works concrete option strings through the model.

The parser is modelled as the code has it, including where it departs from what its messages and documentation suggest:

- **Out-of-range `-k` raises.** A `-k` outside `1..rows` does not end in the clean `-1` path. After line 80, `k` is an `int`, so building the message on line 82 raises `AttributeError`, and nothing is put on the queue. The same happens on lines 101 and 112: `tree_type` and `metric` are already `str` there. The model keeps these apart as `Raised(...)`, separate from the clean failures `Fail(...)`.
- **Any matched `-t` raises.** The tree-type test on line 100 is an `or` of `!=` comparisons, so it holds for every string.
- **A tree or metric name is never read.** `-t` and `--metric` are matched with `\s+` (whitespace), so `-t ball_tree` or `--metric manhattan` are not matched at all, and the defaults `kd_tree` and `minkowski` are used. A whitespace capture is never one of the accepted metric names, so a matching `--metric` always raises.
- **The negative leaf-size check never fires.** `-l (\d+)` cannot capture a sign, so `-l -1` is simply unmatched and the leaf size stays 20. The rejection on line 89 is unreachable.
- **A missing `-k` wins.** It is the only clean failure, and it fires whatever else the string holds.

## Model

| member | source | states |
|---|---|---|
| PyRegex.RunLength | methods/scikit/allknn.py:65-74 | the greedy `+`: the run from `j` holds only class characters and stops at the end of the string or at the first character outside the class |
| PyRegex.SearchFrom | methods/scikit/allknn.py:65-74 | scanning from `i` finds no match exactly when no index from `i` on begins one; otherwise it finds the first such index, with the greedy capture after the prefix |
| PyRegex.Search | methods/scikit/allknn.py:65-74 | `re.search` returns `None` exactly when the pattern occurs nowhere; otherwise it returns the leftmost match with its greedy group |
| PyRegex.SearchUnique | methods/scikit/allknn.py:65-74 | any match that meets the description of a search result is what `Search` returns, so the description fixes the result |
| PyRegex.IntOfDigitsBounds | methods/scikit/allknn.py:89 | `int()` of a digit run is at least 0 and has no more digits than the run, which is why the test `< 0` on line 89 never holds |
| PyRegex.IntOfDecimal | methods/scikit/allknn.py:80 | `int(str(n)) == n` for every natural number `n`: an independent check that `IntOfDigits` reads decimal notation |
| PyRegex.Decimal | methods/scikit/allknn.py:80 | `str(n)` is a non-empty digit run with no leading zero unless `n` is 0; it is the partner of `int()` in the round trip, not a use in the script (the `str` call on line 83 is never reached, because line 82 raises first) |
| PyRegex.IsUnicodeSpace | methods/scikit/allknn.py:68-69 | `\s` in the `-t` and `--metric` patterns: exactly the characters for which `str.isspace()` holds |
| PyRegex.IntOfDigits | methods/scikit/allknn.py:80-116 | Python's `int()` on a `\d+` capture (lines 80, 89, 95, 106 and 116): decimal evaluation, whose value is below 10 to the power of the run's length |
| PyRegex.IntOfLeadingZero | methods/scikit/allknn.py:80 | a leading zero does not change `int()` of a digit run |
| PyRegex.IntOfDigitsSnoc | methods/scikit/allknn.py:80 | the defining equation of `int()` on digits, unfolded at one appended digit (ten times the value plus the digit); a step for concrete values rather than a further property |
| AllKnn.Parse | methods/scikit/allknn.py:65-116 | a configuration is built only with `1 <= k <= rows` |
| AllKnn.TreeTypeGuard | methods/scikit/allknn.py:100 | the condition of line 100 as written, an `or` of four `!=` tests |
| AllKnn.IntGroupOr | methods/scikit/allknn.py:106-116 | `default if not m else int(m.group(1))` (lines 106 and 116): the default when nothing matched, otherwise a non-negative value with no more digits than the capture |
| AllKnn.RealGroupOr | methods/scikit/allknn.py:105 | `1.0 if not radius else float(radius.group(1))`: the default when nothing matched, otherwise the non-negative value of the digit run |
| AllKnn.SearchRequest | methods/scikit/allknn.py:129-135 | the request carries the model's arguments; the queries are the reference points exactly when there are not two dataset files; once the self-neighbour is dropped, each query gets `k` neighbours |
| AllKnn.RunMetrics | methods/scikit/allknn.py:157-161 | a negative result is passed on unchanged, and exactly the non-negative ones become a runtime |
| AllKnn.Worker | methods/scikit/allknn.py:50-142 | the worker as a function: it raises exactly when parsing raises; any value it returns is the sentinel -1 or, when a model was built, the elapsed time |
| AllKnn.Delivered | methods/scikit/allknn.py:77-141 | what reaches `q` (lines 77, 84, 137 and 141): the returned value exactly once, and nothing when an exception escapes |
| AllKnn.ResultQueue.Put | methods/scikit/allknn.py:141 | `q.put` appends one value to the queue |
| AllKnn.RunAllKnnScikit | methods/scikit/allknn.py:50-142 | the imperative worker ends as `Worker` says; it appends the returned value to the queue, and appends nothing when an exception escapes |
| AllKnnProperties.WhitespaceIsNoMetric | methods/scikit/allknn.py:109-111 | no `\s+` capture is in the list of accepted metrics |
| AllKnnProperties.TreeTypeGuardAlwaysHolds | methods/scikit/allknn.py:100 | the tree-type guard holds for every string, the four valid names included |
| AllKnnProperties.KAcceptedBySearch | methods/scikit/allknn.py:75-85 | `-k` passes its checks exactly when the search finds it and its value is in `1..rows` |
| AllKnnProperties.ParseClassification | methods/scikit/allknn.py:65-116 | each outcome holds exactly under its condition: missing `-k` fails cleanly; out-of-range `-k` raises; a `-t` match raises; failing that, a `--metric` match raises; the negative-leaf failure never happens; otherwise a model is built |
| AllKnnProperties.BuiltFields | methods/scikit/allknn.py:87-116 | every field of a built model is `int()` (the radius `float()`) of the leftmost match of its pattern, or its default when nothing matches; the tree type and metric are always the defaults |
| AllKnnProperties.ParseOfSearches | methods/scikit/allknn.py:87-116 | the converse of BuiltFields: when `-k` is in range and neither `-t` nor `--metric` matches, the built model is determined by what the other searches return |
| AllKnnProperties.SearchWidth | methods/scikit/allknn.py:129-135 | with two files the search asks for `k` neighbours, between 1 and `rows`; otherwise for `k + 1`, which exceeds the reference rows exactly when `k` equals them |
| AllKnnProperties.WorkerMetrics | methods/scikit/allknn.py:118-161 | the worker raises exactly when parsing raises; it delivers one value otherwise; `RunMetrics` reports a runtime exactly when a model was built and the library did not raise, and `-1` in every other case |
| AllKnnExamples.ExampleDefaults | methods/scikit/allknn.py:87-116 | `-k 3` alone builds the model with every default |
| AllKnnExamples.ExampleLeafSizeAndP | methods/scikit/allknn.py:95-106 | `-l 30` and `-p 1` set the leaf size to 30 and `p` to 1 |
| AllKnnExamples.ExampleRadius | methods/scikit/allknn.py:105 | `--radius 2` sets the radius to 2.0 |
| AllKnnExamples.ExampleNJobs | methods/scikit/allknn.py:116 | `--n_jobs 4` sets the job count to 4 |
| AllKnnExamples.ExampleLeadingZeros | methods/scikit/allknn.py:80 | `-k 007` gives `k = 7` |
| AllKnnExamples.ExampleFirstDigitRun | methods/scikit/allknn.py:65 | in `-k x -k 4`, the search passes the `-k` that no digit follows and takes `k = 4` |
| AllKnnExamples.ExampleTreeNameIgnored | methods/scikit/allknn.py:96-97 | `-t brute` is not matched, and the tree type stays `kd_tree` |
| AllKnnExamples.ExampleWhitespaceTreeRaises | methods/scikit/allknn.py:98-101 | a `-t` followed by whitespace matches, and the worker raises |
| AllKnnExamples.ExampleMetricNameIgnored | methods/scikit/allknn.py:107-108 | `--metric l2` is not matched, and the metric stays `minkowski` |
| AllKnnExamples.ExampleNegativeLeafSizeIgnored | methods/scikit/allknn.py:87-88 | `-l -1` is not matched, and the leaf size stays 20 |
| AllKnnExamples.ExampleKZero | methods/scikit/allknn.py:81-82 | `-k 0` raises |
| AllKnnExamples.ExampleKTooLarge | methods/scikit/allknn.py:81-83 | `-k 11` with 10 rows raises |
| AllKnnExamples.ExampleMissingK | methods/scikit/allknn.py:75-78 | without `-k` the worker fails cleanly, even though the string's `--metric` would raise |
| AllKnnExamples.ExampleSearchWidth | methods/scikit/allknn.py:129-135 | `k = 3` asks for 4 neighbours with one dataset file and for 3 with two |

## Left out

- The `sys.path` set-up and the imports (lines 8-23) are not modelled. `re` is assumed to reach the module through the star imports of `log` and `timer`, which are not part of this model.
- Loading the datasets with `np.genfromtxt` (lines 56-61) is not modelled. The number of reference rows (`referenceData.shape[0]`) and the number of dataset files (`len(self.dataset)`) are parameters. The model does not say how `genfromtxt` shapes a one-line file, or what `len` gives when the dataset is a single path string.
- The `Timer` (lines 51, 63 and 140) is not modelled. The elapsed time is a non-negative parameter. `Timer` is assumed not to suppress exceptions raised inside the `with` block. If its `__exit__` did, the `AttributeError` of lines 82, 101 and 112 would be swallowed, and lines 140-141 would put the elapsed time on the queue. So `Worker`'s `Threw` outcome and "nothing is put on the queue" rest on this assumption.
- The timeout wrapper (line 144) is not modelled: its process, its queue and what it reports for a worker that raised. The `timeout` helper is not part of this model; the queue is modelled only as the sequence of values put on it.
- The scikit-learn calls (lines 120-135) become a parameter that says whether the library raises for a given request. What they compute is not modelled.
- `Log.Info` and `Log.Fatal` are not modelled, and neither are the text of their messages; they are assumed only to log. Only the fact that the messages of lines 82, 101 and 112 call `.group(1)` on an `int` or a `str`, and so raise `AttributeError`, is modelled, as the `Crash` cases.
- The constructor (lines 37-40), which only stores its arguments, is not modelled.
- PyRegex.IsAsciiDigit: `\d` is modelled as the ASCII digits. Python 3 also matches other Unicode decimal digits, and `int()` accepts them.
- PyRegex.IntOfDigits: the digit-count limit of `int()` in newer Python versions is not modelled.
- AllKnn.Parse: `float()` of the radius is modelled as the exact value of the digit run. For very long runs the model does not capture rounding to a double.
- AllKnn.Parse: the truthiness tests of lines 98 and 109 are not separate branches. They test a capture of at least one character, so they always hold.
