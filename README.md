# Trace grouping and analysis, in Dafny

This project models `group_traces.py`, the core of a tool that groups
request-flow traces by the shape of their call graphs and summarises each
group. Its members are:

- **depth_first_traversal** walks a trace's call graph from the root with a
  worklist. It pops the head, records the node's label the first time it
  sees that label, and pushes the node's children back on the front.
- **hashval** joins the labels of that traversal into one string. The
  structural key is the captured digit of every match of the regular
  expression `(\d)\.1`.
- **group_traces** files a trace's identifier under its key in the module
  dictionary `categories`.
- **trace_lookup** finds the first trace with a given identifier. On a miss
  it evaluates the undefined name `none`, which raises an error.
- **process_groups** computes each group's mean response time and its
  variance. The variance is 0 unless the group has at least three traces.
- **edge_latencies** collects, for one group, the latency series of every
  call-graph edge, then their averages and variances.

The modules follow the program:

| file | module | models |
|---|---|---|
| `types.dfy` | `TraceTypes` | the trace record and the error kinds (`NameError`, `ZeroDivisionError`, `KeyError`) |
| `traversal.dfy` | `Traversal` | depth_first_traversal, as a method with a loop |
| `fingerprint.dfy` | `Fingerprint` | hashval and the `re.findall` scan it relies on |
| `buckets.dfy` | `Buckets` | "append to the key's list, or create it", shared by `categories` and the edge series |
| `stats.dfy` | `Stats` | sums, means and the two variance formulas, over exact reals |
| `grouping.dfy` | `Grouping` | trace_lookup, and group_traces as a method of the class `Categories` |
| `analysis.dfy` | `Analysis` | process_groups and edge_latencies, as methods with their loops |

A call graph is a map from node label to the ordered list of its children,
plus a root. The traversal is specified against a reference definition:
- `Unfold` is the preorder of the tree of all paths from the root.
- `Dedup` keeps the first occurrence of each label.

The proofs take a ghost `rank` map as witness that the graph is acyclic,
which is what the docstring calls a DAG. On a graph with a cycle reachable
from the root the worklist never drains; `CycleBelowRootNeverDrains` proves
this. A cycle alone does not stop the loop: on a two-node graph whose
self-loop the root cannot reach, the worklist `[root]` is empty after one
iteration (`UnreachableCycleDrains`).

Loops that visit a dictionary pick each next key with `:|`. Each method's
contract therefore holds for every iteration order.

## Model

| member | source | states |
|---|---|---|
| Traversal.Reverse | group_traces.py:26 | get_rev_children lists a node's children last child first |
| Traversal.Dedup | group_traces.py:24-25 | the kept labels are exactly the labels seen, with no label kept twice |
| Traversal.DedupFirstOccurrenceOrder | group_traces.py:24-25 | labels are kept in the order of their first occurrence |
| Traversal.DedupHead | group_traces.py:18-25 | the first label kept is the first label seen |
| Traversal.UnfoldIsReachableSet | group_traces.py:9-29 | the labels of the path-tree preorder are exactly the labels reachable from the root |
| Traversal.StepUnfold | group_traces.py:20-27 | one iteration pops exactly the head of the pending preorder, so the pending paths drop by one and the loop ends on a DAG |
| Traversal.StepKeepsCycle | group_traces.py:20-27 | a worklist holding a node from which a cycle is reachable still holds such a node after an iteration |
| Traversal.CycleNeverDrains | group_traces.py:20-27 | on a graph with a cycle reachable from some node of the worklist, the worklist is non-empty after any number of iterations |
| Traversal.CycleBelowRootNeverDrains | group_traces.py:18-27 | from the starting worklist `[root]`, a cycle reachable from the root keeps the worklist non-empty forever, so the traversal never returns |
| Traversal.UnreachableCycleDrains | group_traces.py:18-27 | on the two-node graph `a` (no children), `b` (its own child) with root `a`, whose self-loop the root cannot reach, the worklist `[root]` is empty after one iteration |
| Traversal.RankedHasNoCycle | group_traces.py:10-11 | a graph with a rank that drops along every edge has no cycle, so the rank witnesses the DAG assumption |
| Traversal.PushReversed | group_traces.py:26-27 | inserting the reversed children one by one at the front leaves the children in their own order ahead of the rest of the worklist |
| Traversal.DepthFirstTraversal | group_traces.py:9-29 | the result is the first-occurrence order of the path-tree preorder; it starts at the root, holds no duplicates, and holds exactly the reachable labels |
| Fingerprint.MatchStarts | group_traces.py:37 | every position the scan reports is a match of `(\d)\.1`, and the positions are at least one match length apart |
| Fingerprint.MatchStartsComplete | group_traces.py:37 | every match the scan skips overlaps a match it took, so it finds the greedy left-to-right non-overlapping matches |
| Fingerprint.FindAll | group_traces.py:37 | findall yields one digit per match: the captured digit at that match's start |
| Fingerprint.EmptyKeyIffNoMatch | group_traces.py:37 | the key is empty exactly when the joined labels contain no match |
| Fingerprint.ScanAfterPrefix | group_traces.py:37 | after a prefix, the scan finds the matches of the rest, shifted by the prefix length |
| Fingerprint.FirstChildLabel | group_traces.py:37 | a string that starts `d.1` contributes `d` and then the key of what follows |
| Fingerprint.MatchSpansLabels | group_traces.py:37 | matching runs over the joined labels, not label by label: the strings `"1"` then `".1"` (not dotted-decimal ids) give key `"1"`, though neither alone gives one |
| Fingerprint.TwoFirstChildren | group_traces.py:37 | labels `1.1`, `2.1` give key `"12"`; `2.10` and `2.1` both give `"2"` |
| Fingerprint.HashVal | group_traces.py:31-39 | the key is the findall of the joined traversal labels, and every character is a digit |
| Buckets.Add | group_traces.py:48-52 | the key's list gets the value appended, or a new one-element list, and every other list is unchanged |
| Buckets.AddAllBucket | group_traces.py:48-52 | after a run of appends, a key's list is its old list followed by that key's values in arrival order |
| Buckets.AddAllKeys | group_traces.py:48-52 | after a run of appends, the keys are the old keys plus the keys appended |
| Buckets.AddAllIsFilter | group_traces.py:48-52 | after a run of appends, each list is its old contents followed by its key's values in order, over exactly the old and the new keys |
| Buckets.AddAllConcat | group_traces.py:107-117 | appending two runs one after the other equals appending their concatenation |
| Buckets.AddAllNonEmpty | group_traces.py:114-117 | no list is ever empty when none was before |
| Buckets.FilterMembers | group_traces.py:114-117 | a key's values are exactly the values appended under that key |
| Buckets.FilterAbsent | group_traces.py:114-117 | a key never appended has no values |
| Buckets.FilterConcat | group_traces.py:107-117 | a key's values over two runs are its values over each run, in order |
| Buckets.FilterOnce | group_traces.py:107-117 | a key appended exactly once has exactly one value |
| Buckets.KeysOfConcat | group_traces.py:107-117 | the keys of two runs are the keys of each |
| Buckets.TotalSizeAdd | group_traces.py:48-52 | each append adds exactly one element across all lists |
| Buckets.TotalSizeAddAll | group_traces.py:48-52 | n appends add exactly n elements across all lists |
| Stats.SumBetween | group_traces.py:74-77 | with every value in [lo, hi], the sum lies between n*lo and n*hi |
| Stats.MeanBetween | group_traces.py:77 | the mean lies between the smallest and the largest value |
| Stats.SumSqDevNonNegative | group_traces.py:80-84 | the sum of squared deviations is never negative |
| Stats.SumSqDevZero | group_traces.py:80-84 | the squared deviations sum to zero exactly when every value equals the average |
| Stats.VariancesNonNegative | group_traces.py:85-88 | neither variance formula is ever negative |
| Stats.GroupVarianceZero | group_traces.py:85-88 | a group's variance is 0 exactly when it has at most two responses or all its responses are equal |
| Stats.SampleVarianceZero | group_traces.py:129-137 | an edge's sample variance is 0 exactly when it has one sample or all samples are equal |
| Stats.GroupStatsExample | group_traces.py:68-90 | responses 10, 20, 30 give mean 20 and variance 100; two responses give variance 0 |
| Stats.EdgeStatsExample | group_traces.py:120-137 | latencies 100, 200 give mean 150 and sample variance 5000 |
| Grouping.TraceLookup | group_traces.py:54-58 | succeeds exactly when some trace has the identifier, returning a trace of the list with that identifier; otherwise the undefined-name error |
| Grouping.TraceLookupFirst | group_traces.py:55-57 | the trace returned is the earliest one with the identifier |
| Grouping.TraceLookupUnique | group_traces.py:55-57 | with unique identifiers, every trace is found by its own identifier |
| Grouping.IndexBuckets | group_traces.py:41-52 | grouping a run of traces gives exactly their keys, each bucket listing the identifiers of that key's traces in arrival order |
| Grouping.IndexMembership | group_traces.py:41-52 | an identifier is in a key's bucket exactly when some grouped trace has that identifier and that key |
| Grouping.IndexDisjoint | group_traces.py:41-52 | with unique identifiers, each identifier is in only one bucket |
| Grouping.IndexTotal | group_traces.py:41-52 | the buckets together hold one identifier per grouped trace |
| Grouping.IndexSnoc | group_traces.py:41-52 | grouping one more trace is one more append to the index |
| Grouping.Categories.constructor | group_traces.py:7 | the dictionary of groups starts empty |
| Grouping.Categories.GroupTrace | group_traces.py:41-52 | the trace's identifier is appended to its key's bucket, or starts a new bucket, and every other bucket is unchanged |
| Analysis.GroupSummaryBounds | group_traces.py:68-90 | a group's summary succeeds exactly for a non-empty group of known traces; an unknown identifier gives the undefined-name error; the average lies within the responses' range; the variance is not negative |
| Analysis.SumResponses | group_traces.py:73-76 | the first pass fails with the undefined-name error exactly when some identifier is unknown, and otherwise yields the sum of the responses |
| Analysis.SumSquaredDeviations | group_traces.py:79-84 | the second pass yields the sum of the squared deviations of the responses from the average |
| Analysis.SummarizeGroup | group_traces.py:68-90 | one group's summary: an unknown identifier fails first, an empty group divides by zero, and otherwise the mean and the n-1 variance, which is 0 below three responses |
| Analysis.ProcessGroups | group_traces.py:60-91 | succeeds exactly when every group is non-empty with known identifiers, then gives every group its summary; otherwise fails with the error of some group's summary |
| Analysis.IndexSummariesSucceed | group_traces.py:60-91 | summarising the groups built from traces whose identifiers are all in the list never fails |
| Analysis.SeriesTotal | group_traces.py:107-117 | every full edge of every trace of the group lands in exactly one series: the series lengths add up to the number of full edges |
| Analysis.EdgePairsUniform | group_traces.py:96-117 | traces that each have every edge of a set exactly once contribute to each of those edges one latency per trace, and to no other edge |
| Analysis.SeriesUniform | group_traces.py:96-117 | when all traces have the same structure, the series' edges are the first trace's edges, each with one latency per trace |
| Analysis.AppendEntries | group_traces.py:109-117 | one trace's edges are appended to the series in edge order |
| Analysis.CollectSeries | group_traces.py:107-117 | fails with the undefined-name error exactly when some identifier of the group is unknown; otherwise gives the latency series of every edge over the group's traces in order |
| Analysis.SumSeries | group_traces.py:121-124 | the running sum of one series is its sum |
| Analysis.SeriesMean | group_traces.py:121-125 | the value stored as an edge's average is the mean of its series |
| Analysis.AverageSeries | group_traces.py:120-125 | every edge's average is the mean of its series; `numvals` is left at the length of the series visited last |
| Analysis.SumSquaredSeries | group_traces.py:132-136 | the running sum of squared deviations of one series |
| Analysis.SeriesVariance | group_traces.py:129-137 | an edge's variance is 0 when `numvals` is below 2, otherwise the squared deviations over `numvals - 1` |
| Analysis.VarianceSeries | group_traces.py:128-137 | every edge's variance uses the same leftover `numvals` for the guard and for the divisor |
| Analysis.EdgeLatencies | group_traces.py:96-142 | a missing group raises KeyError and an unknown identifier the undefined-name error; the series are the group's latencies and the averages their means; every variance uses the length of one series, the one averaged last; with equal lengths, and so for traces of the same structure, they are the sample variances |
| Analysis.LeftoverNumvalsWrong | group_traces.py:128-137 | with series of lengths 2 and 3, whichever key is averaged last, some edge's variance differs from its sample variance |
| Analysis.SampleVarianceSeries | group_traces.py:128-137 | the corrected variance pass: every edge's variance is the sample variance of its own series |
| Analysis.EdgeLatenciesCorrected | group_traces.py:96-142 | edge_latencies with the corrected pass: the same series, averages and errors, and every variance the edge's own sample variance, whatever the iteration order |

## Left out

- Floating point: responses, latencies, sums and variances are exact reals. Rounding, `inf` and `nan` are not modelled.
- Parsing inside edge_latencies (group_traces.py:112-113): each full edge is modelled already split into its edge label and latency. A `re.search` that finds nothing fails on `.group` (an AttributeError). A latency that `float` cannot read raises ValueError. Neither failure is modelled.
- Trace records (identifier, call graph, response, full-edge strings) are built outside the core, and a trace is modelled as a record of those fields.
- The `float(t.response)` calls in process_groups (group_traces.py:76 and 83) are modelled by an already-real `response` field. The ValueError that `float` raises on an unreadable response is not modelled.
- make_dag is not part of this model. A call-graph node is identified by its label, and `get_rev_children` is the reverse of the node's child list.
- The `Timer` context in depth_first_traversal only measures time, and is left out.
- cov_matrix (group_traces.py:151-165): numpy covariance matrices are not part of this model.
- The commented-out `print` statements, the `decimal` import and the numpy import do nothing in the core, and are left out.
- Dictionary iteration order is not modelled. The loops over `d.items()` and `edge_latencies.items()` take keys in an arbitrary order, and every contract holds for all orders.
- Traversal.DepthFirstTraversal: requires an acyclic graph (the ghost `rank`), as the docstring assumes. With a cycle reachable from the root the source never returns. The model shows this separately, with `Steps` and `CycleBelowRootNeverDrains`, rather than as a method that runs forever.
- Analysis.ProcessGroups: when several groups would fail, the model promises the error of some failing group, not the first in iteration order. That order is not modelled.
- Analysis.EdgeLatencies: the series store the latencies as reals. The source stores the matched strings and converts them with `float` when it sums.
- The module-level `categories` dictionary is a `Categories` object passed to EdgeLatencies, not a global.

## Findings

| source | as written | input that shows it | evidently intended | confidence | as-written member | corrected member |
|---|---|---|---|---|---|---|
| group_traces.py:128-137 | The variance pass tests `numvals < 2` and divides by `numvals - 1`. `numvals` is never reset inside that loop, so every edge uses the length of the series the averaging pass visited last. Python 2 counts each tab as 8 columns, which puts line 137 inside the `else`. | A group of three traces where the third lacks edge `1.1 -> 2.1`: series `[100, 200]` and `[10, 20, 30]`. Averaged last, the 3-sample series gives the 2-sample edge variance 2500 instead of 5000. Averaged last, the 2-sample series gives the 3-sample edge 200 instead of 100. | The sample variance of each edge's own series, with `len(values)` as both guard and divisor. | medium, not executed. Under the docstring's same-structure assumption every series has the same length, and the result is then correct. | Analysis.LeftoverNumvalsWrong | Analysis.SampleVarianceSeries |
