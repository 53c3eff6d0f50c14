/** Statistics over the groups: the response-time summary of every group
    (process_groups) and the per-edge latency series of one group with
    their averages and variances (edge_latencies). */
module Analysis {
  import opened TraceTypes
  import Buckets
  import Stats
  import Grouping

  /** Every identifier in `ids` names a trace of `tlist`. */
  predicate AllFound(ids: seq<TraceId>, tlist: seq<Trace>) {
    forall i :: 0 <= i < |ids| ==> Grouping.TraceLookup(ids[i], tlist).Ok?
  }

  /** The trace each identifier resolves to. */
  function Resolve(ids: seq<TraceId>, tlist: seq<Trace>): (ts: seq<Trace>)
    requires AllFound(ids, tlist)
    ensures |ts| == |ids|
    ensures forall i :: 0 <= i < |ids| ==> ts[i] in tlist && ts[i].traceId == ids[i]
  {
    seq(|ids|, i requires 0 <= i < |ids| => Grouping.TraceLookup(ids[i], tlist).value)
  }

  function Responses(ts: seq<Trace>): (rs: seq<real>)
    ensures |rs| == |ts| && forall i :: 0 <= i < |ts| ==> rs[i] == ts[i].response
  {
    seq(|ts|, i requires 0 <= i < |ts| => ts[i].response)
  }

  lemma ResolveSnoc(ids: seq<TraceId>, tlist: seq<Trace>, i: nat)
    requires i < |ids| && AllFound(ids[..i + 1], tlist)
    ensures AllFound(ids[..i], tlist)
    ensures Resolve(ids[..i + 1], tlist) == Resolve(ids[..i], tlist) + [Grouping.TraceLookup(ids[i], tlist).value]
  {
    assert forall k :: 0 <= k < i ==> ids[..i][k] == ids[..i + 1][k];
  }

  lemma ResponsesSnoc(ts: seq<Trace>, t: Trace)
    ensures Responses(ts + [t]) == Responses(ts) + [t.response]
  {
  }

  /** One more successful lookup extends the responses by that trace's response. */
  lemma ResponsesStep(ids: seq<TraceId>, tlist: seq<Trace>, i: nat)
    requires i < |ids| && AllFound(ids[..i], tlist) && Grouping.TraceLookup(ids[i], tlist).Ok?
    ensures AllFound(ids[..i + 1], tlist)
    ensures Responses(Resolve(ids[..i + 1], tlist))
         == Responses(Resolve(ids[..i], tlist)) + [Grouping.TraceLookup(ids[i], tlist).value.response]
  {
    assert forall k :: 0 <= k < i ==> ids[..i + 1][k] == ids[..i][k];
    ResolveSnoc(ids, tlist, i);
    ResponsesSnoc(Resolve(ids[..i], tlist), Grouping.TraceLookup(ids[i], tlist).value);
  }

  /** The summary process_groups stores for one group. */
  datatype GroupInfo = GroupInfo(average: real, variance: real)

  /** The summary of the group `ids`: an unknown identifier raises the
      lookup error while the responses are summed, and an empty group then
      divides by zero; otherwise the mean response and the group variance. */
  function GroupSummary(ids: seq<TraceId>, tlist: seq<Trace>): Result<GroupInfo> {
    if !AllFound(ids, tlist) then Err(UndefinedName)
    else if |ids| == 0 then Err(ZeroDivision)
    else
      var rs := Responses(Resolve(ids, tlist));
      Ok(GroupInfo(Stats.Mean(rs), Stats.GroupVariance(rs)))
  }

  /** A summary succeeds exactly for a non-empty group of known traces, and
      then its average lies within the responses' range and its variance is
      never negative. */
  lemma GroupSummaryBounds(ids: seq<TraceId>, tlist: seq<Trace>, lo: real, hi: real)
    requires forall i :: 0 <= i < |tlist| ==> lo <= tlist[i].response <= hi
    ensures GroupSummary(ids, tlist).Ok? <==> AllFound(ids, tlist) && |ids| > 0
    ensures GroupSummary(ids, tlist).Err? && !AllFound(ids, tlist) ==> GroupSummary(ids, tlist).error == UndefinedName
    ensures GroupSummary(ids, tlist).Ok? ==>
              lo <= GroupSummary(ids, tlist).value.average <= hi && GroupSummary(ids, tlist).value.variance >= 0.0
  {
    if AllFound(ids, tlist) && |ids| > 0 {
      var rs := Responses(Resolve(ids, tlist));
      Stats.MeanBetween(rs, lo, hi);
      Stats.VariancesNonNegative(rs);
    }
  }

  /** The first pass of process_groups' loop body: looks every identifier
      up and sums the responses. */
  method SumResponses(ids: seq<TraceId>, tlist: seq<Trace>) returns (r: Result<real>)
    ensures r.Ok? <==> AllFound(ids, tlist)
    ensures r.Ok? ==> r.value == Stats.Sum(Responses(Resolve(ids, tlist)))
    ensures r.Err? ==> r.error == UndefinedName
  {
    var psum := 0.0;
    ghost var rs: seq<real> := [];
    var i := 0;
    while i < |ids|
      invariant 0 <= i <= |ids|
      invariant AllFound(ids[..i], tlist)
      invariant rs == Responses(Resolve(ids[..i], tlist))
      invariant psum == Stats.Sum(rs)
    {
      var t := Grouping.TraceLookup(ids[i], tlist);
      if t.Err? {
        return Err(UndefinedName);
      }
      ResponsesStep(ids, tlist, i);
      Stats.SumSnoc(rs, t.value.response);
      psum := psum + t.value.response;
      rs := rs + [t.value.response];
      i := i + 1;
    }
    assert ids[..i] == ids;
    return Ok(psum);
  }

  /** The second pass: sums the squared deviations of the responses from `avg`. */
  method SumSquaredDeviations(ids: seq<TraceId>, tlist: seq<Trace>, avg: real) returns (psum: real)
    requires AllFound(ids, tlist)
    ensures psum == Stats.SumSqDev(Responses(Resolve(ids, tlist)), avg)
  {
    ghost var rs := Responses(Resolve(ids, tlist));
    psum := 0.0;
    var i := 0;
    while i < |ids|
      invariant 0 <= i <= |ids|
      invariant psum == Stats.SumSqDev(rs[..i], avg)
    {
      var t := Grouping.TraceLookup(ids[i], tlist);
      var curr := (t.value.response - avg) * (t.value.response - avg);
      assert rs[..i + 1] == rs[..i] + [t.value.response];
      Stats.SumSqDevSnoc(rs[..i], t.value.response, avg);
      psum := psum + curr;
      i := i + 1;
    }
    assert rs[..i] == rs;
  }

  /** The body of process_groups' loop for one group: the mean response,
      then the variance, which stays 0 unless the group has more than two
      traces. */
  method SummarizeGroup(ids: seq<TraceId>, tlist: seq<Trace>) returns (r: Result<GroupInfo>)
    ensures r == GroupSummary(ids, tlist)
  {
    var numvals := |ids|;
    var total := SumResponses(ids, tlist);
    if total.Err? {
      return Err(total.error);
    }
    if numvals == 0 {
      return Err(ZeroDivision);
    }
    var avg := total.value / numvals as real;
    ghost var rs := Responses(Resolve(ids, tlist));
    assert |rs| == numvals && avg == Stats.Mean(rs);
    var psum := SumSquaredDeviations(ids, tlist, avg);
    var variance := if numvals - 1 > 1 then (1.0 / (numvals - 1) as real) * psum else 0.0;
    assert variance == Stats.GroupVariance(rs);
    return Ok(GroupInfo(avg, variance));
  }

  /** A failing summary is one of an empty group or of a group with an
      unknown identifier. */
  lemma SummaryFails(ids: seq<TraceId>, tlist: seq<Trace>)
    requires GroupSummary(ids, tlist).Err?
    ensures !(AllFound(ids, tlist) && |ids| > 0)
  {
  }

  /** Summaries that all succeeded come from non-empty groups of known traces. */
  lemma SummariesSucceed(d: map<string, seq<TraceId>>, tlist: seq<Trace>, info: map<string, GroupInfo>)
    requires info.Keys == d.Keys
    requires forall h :: h in info ==> Ok(info[h]) == GroupSummary(d[h], tlist)
    ensures forall h :: h in d ==> AllFound(d[h], tlist) && |d[h]| > 0
  {
    forall h | h in d ensures AllFound(d[h], tlist) && |d[h]| > 0 {
      assert GroupSummary(d[h], tlist).Ok?;
    }
  }

  /** process_groups(d, tlist): the summary of every group, or the first
      error met; the order in which groups are visited is not fixed. */
  method ProcessGroups(d: map<string, seq<TraceId>>, tlist: seq<Trace>) returns (r: Result<map<string, GroupInfo>>)
    ensures r.Ok? <==> forall h :: h in d ==> AllFound(d[h], tlist) && |d[h]| > 0
    ensures r.Ok? ==> r.value.Keys == d.Keys && forall h :: h in d ==> Ok(r.value[h]) == GroupSummary(d[h], tlist)
    ensures r.Err? ==> exists h :: h in d && GroupSummary(d[h], tlist) == Err(r.error)
  {
    var info: map<string, GroupInfo> := map[];
    var rest := d.Keys;
    while rest != {}
      invariant rest <= d.Keys
      invariant info.Keys == d.Keys - rest
      invariant forall h :: h in info ==> Ok(info[h]) == GroupSummary(d[h], tlist)
      decreases |rest|
    {
      var h :| h in rest;
      var s := SummarizeGroup(d[h], tlist);
      if s.Err? {
        SummaryFails(d[h], tlist);
        return Err(s.error);
      }
      info := info[h := s.value];
      rest := rest - {h};
    }
    SummariesSucceed(d, tlist, info);
    return Ok(info);
  }

  /** Summarising the index built from `ts` succeeds whenever every grouped
      trace can be looked up: no bucket is empty and every identifier in a
      bucket is one of the grouped traces'. */
  lemma IndexSummariesSucceed(ts: seq<Trace>, tlist: seq<Trace>)
    requires forall i :: 0 <= i < |ts| ==> exists j :: 0 <= j < |tlist| && tlist[j].traceId == ts[i].traceId
    ensures forall h :: h in Grouping.Index(ts) ==> GroupSummary(Grouping.Index(ts)[h], tlist).Ok?
  {
    var empty: map<string, seq<TraceId>> := map[];
    Buckets.AddAllNonEmpty(empty, Grouping.HashPairs(ts));
    forall h | h in Grouping.Index(ts) ensures AllFound(Grouping.Index(ts)[h], tlist) {
      var b := Grouping.Index(ts)[h];
      forall k | 0 <= k < |b| ensures Grouping.TraceLookup(b[k], tlist).Ok? {
        Grouping.IndexMembership(ts, h, b[k]);
      }
    }
  }

  /** The (edge, latency) pairs of one trace's full edges, in order. */
  function EntryPairs(es: seq<EdgeEntry>): (r: seq<(EdgeKey, real)>)
    ensures |r| == |es| && forall i :: 0 <= i < |es| ==> r[i] == (es[i].edge, es[i].latency)
  {
    seq(|es|, i requires 0 <= i < |es| => (es[i].edge, es[i].latency))
  }

  /** The pairs of all traces, trace after trace. */
  function EdgePairs(ts: seq<Trace>): seq<(EdgeKey, real)> {
    if ts == [] then [] else EdgePairs(ts[..|ts| - 1]) + EntryPairs(ts[|ts| - 1].fullEdges)
  }

  /** The latency series of every edge of the traces `ts`. */
  function Series(ts: seq<Trace>): map<EdgeKey, seq<real>> {
    Buckets.AddAll(map[], EdgePairs(ts))
  }

  /** The number of full edges of all traces of `ts`. */
  function SumEdges(ts: seq<Trace>): nat {
    if ts == [] then 0 else SumEdges(ts[..|ts| - 1]) + |ts[|ts| - 1].fullEdges|
  }

  lemma {:induction false} EdgePairsLength(ts: seq<Trace>)
    ensures |EdgePairs(ts)| == SumEdges(ts)
  {
    if ts != [] {
      EdgePairsLength(ts[..|ts| - 1]);
    }
  }

  /** Every full edge of every trace lands in exactly one series: the series
      lengths add up to the number of full edges. */
  lemma SeriesTotal(ts: seq<Trace>)
    ensures Buckets.TotalSize(Series(ts)) == SumEdges(ts)
  {
    var empty: map<EdgeKey, seq<real>> := map[];
    Buckets.TotalSizeAddAll(empty, EdgePairs(ts));
    assert Buckets.TotalSize(empty) == 0;
    EdgePairsLength(ts);
  }

  /** The edge labels of one trace. */
  function EdgeSet(es: seq<EdgeEntry>): set<EdgeKey> {
    set i | 0 <= i < |es| :: es[i].edge
  }

  /** No edge label occurs twice in one trace. */
  predicate DistinctEdges(es: seq<EdgeEntry>) {
    forall i, j :: 0 <= i < j < |es| ==> es[i].edge != es[j].edge
  }

  /** The assumption edge_latencies documents: all traces of the group have
      the same structure, i.e. each has every edge of the first trace exactly
      once and no other. */
  predicate SameStructure(ts: seq<Trace>) {
    forall i :: 0 <= i < |ts| ==>
      DistinctEdges(ts[i].fullEdges) && EdgeSet(ts[i].fullEdges) == EdgeSet(ts[0].fullEdges)
  }

  lemma KeysOfEntryPairs(es: seq<EdgeEntry>)
    ensures Buckets.KeysOf(EntryPairs(es)) == EdgeSet(es)
  {
    var ps := EntryPairs(es);
    assert forall i :: 0 <= i < |es| ==> ps[i].0 == es[i].edge;
  }

  /** Traces that each carry every edge of `edges` exactly once contribute
      one latency per trace to every such edge, and no other edge. */
  lemma {:induction false} EdgePairsUniform(ts: seq<Trace>, edges: set<EdgeKey>)
    requires forall i :: 0 <= i < |ts| ==> DistinctEdges(ts[i].fullEdges) && EdgeSet(ts[i].fullEdges) == edges
    ensures ts != [] ==> Buckets.KeysOf(EdgePairs(ts)) == edges
    ensures forall k :: k in edges ==> |Buckets.Filter(EdgePairs(ts), k)| == |ts|
  {
    if ts != [] {
      var init, t := ts[..|ts| - 1], ts[|ts| - 1];
      EdgePairsUniform(init, edges);
      var a, b := EdgePairs(init), EntryPairs(t.fullEdges);
      assert EdgePairs(ts) == a + b;
      KeysOfEntryPairs(t.fullEdges);
      Buckets.KeysOfConcat(a, b);
      if init == [] {
        assert Buckets.KeysOf(a) == {};
      }
      forall k | k in edges ensures |Buckets.Filter(EdgePairs(ts), k)| == |ts| {
        Buckets.FilterConcat(a, b, k);
        Buckets.FilterOnce(b, k);
      }
    }
  }

  /** Under the documented assumption every edge of the first trace has a
      series with one latency per trace, and there are no other edges. */
  lemma SeriesUniform(ts: seq<Trace>)
    requires ts != [] && SameStructure(ts)
    ensures Series(ts).Keys == EdgeSet(ts[0].fullEdges)
    ensures forall k :: k in Series(ts) ==> |Series(ts)[k]| == |ts|
  {
    EdgePairsUniform(ts, EdgeSet(ts[0].fullEdges));
    Buckets.AddAllIsFilter(map[], EdgePairs(ts));
  }

  /** What edge_latencies returns: the series, their averages and their variances. */
  datatype EdgeStats = EdgeStats(
    series: map<EdgeKey, seq<real>>,
    averages: map<EdgeKey, real>,
    variances: map<EdgeKey, real>)

  lemma EdgePairsSnoc(ts: seq<Trace>, t: Trace)
    ensures EdgePairs(ts + [t]) == EdgePairs(ts) + EntryPairs(t.fullEdges)
  {
    assert (ts + [t])[..|ts|] == ts;
  }

  /** The inner loop of the collecting pass: files every full edge of one
      trace under its edge label. */
  method AppendEntries(series: map<EdgeKey, seq<real>>, es: seq<EdgeEntry>) returns (s: map<EdgeKey, seq<real>>)
    ensures s == Buckets.AddAll(series, EntryPairs(es))
  {
    s := series;
    var j := 0;
    while j < |es|
      invariant 0 <= j <= |es|
      invariant s == Buckets.AddAll(series, EntryPairs(es[..j]))
    {
      var ps := EntryPairs(es[..j + 1]);
      assert ps[..j] == EntryPairs(es[..j]);
      assert ps[j] == (es[j].edge, es[j].latency);
      assert Buckets.AddAll(series, ps) == Buckets.Add(Buckets.AddAll(series, ps[..j]), ps[j].0, ps[j].1);
      s := Buckets.Add(s, es[j].edge, es[j].latency);
      j := j + 1;
    }
    assert es[..j] == es;
  }

  /** The collecting pass of edge_latencies: looks every trace of the group
      up and files its full edges. */
  method CollectSeries(traces: seq<TraceId>, tlist: seq<Trace>) returns (r: Result<map<EdgeKey, seq<real>>>)
    ensures r.Ok? <==> AllFound(traces, tlist)
    ensures r.Ok? ==> r.value == Series(Resolve(traces, tlist))
    ensures r.Err? ==> r.error == UndefinedName
  {
    var series: map<EdgeKey, seq<real>> := map[];
    ghost var resolved: seq<Trace> := [];
    var i := 0;
    while i < |traces|
      invariant 0 <= i <= |traces|
      invariant AllFound(traces[..i], tlist)
      invariant resolved == Resolve(traces[..i], tlist)
      invariant series == Series(resolved)
    {
      var t := Grouping.TraceLookup(traces[i], tlist);
      if t.Err? {
        return Err(UndefinedName);
      }
      assert AllFound(traces[..i + 1], tlist) by {
        assert forall k :: 0 <= k < i ==> traces[..i + 1][k] == traces[..i][k];
      }
      ResolveSnoc(traces, tlist, i);
      EdgePairsSnoc(resolved, t.value);
      Buckets.AddAllConcat(map[], EdgePairs(resolved), EntryPairs(t.value.fullEdges));
      series := AppendEntries(series, t.value.fullEdges);
      resolved := resolved + [t.value];
      i := i + 1;
    }
    assert traces[..i] == traces;
    return Ok(series);
  }

  /** `psum += float(value)` over one series. */
  method SumSeries(values: seq<real>) returns (psum: real)
    ensures psum == Stats.Sum(values)
  {
    psum := 0.0;
    var m := 0;
    while m < |values|
      invariant 0 <= m <= |values|
      invariant psum == Stats.Sum(values[..m])
    {
      assert values[..m + 1] == values[..m] + [values[m]];
      Stats.SumSnoc(values[..m], values[m]);
      psum := psum + values[m];
      m := m + 1;
    }
    assert values[..m] == values;
  }

  /** `psum += (float(value) - avg) ** 2` over one series. */
  method SumSquaredSeries(values: seq<real>, avg: real) returns (psum: real)
    ensures psum == Stats.SumSqDev(values, avg)
  {
    psum := 0.0;
    var m := 0;
    while m < |values|
      invariant 0 <= m <= |values|
      invariant psum == Stats.SumSqDev(values[..m], avg)
    {
      var curr := (values[m] - avg) * (values[m] - avg);
      assert values[..m + 1] == values[..m] + [values[m]];
      Stats.SumSqDevSnoc(values[..m], values[m], avg);
      psum := psum + curr;
      m := m + 1;
    }
    assert values[..m] == values;
  }

  /** The body of the variance loop for one edge: 0 when `numvals` is below
      2, and otherwise the squared deviations of `values` from `avg` divided
      by `numvals - 1`. */
  method SeriesVariance(values: seq<real>, avg: real, numvals: int) returns (v: real)
    ensures v == Stats.LeftoverVariance(values, avg, numvals)
  {
    if numvals < 2 {
      v := 0.0;
    } else {
      var psum := SumSquaredSeries(values, avg);
      v := (1.0 / (numvals - 1) as real) * psum;
    }
  }

  /** `psum / numvals` for one non-empty series. */
  method SeriesMean(values: seq<real>) returns (avg: real)
    requires |values| > 0
    ensures avg == Stats.Mean(values)
  {
    var psum := SumSeries(values);
    avg := psum / |values| as real;
  }

  /** The averaging pass: the mean of every series. It leaves `numvals` at the
      length of the series it visited last. */
  method AverageSeries(series: map<EdgeKey, seq<real>>) returns (averages: map<EdgeKey, real>, numvals: int, ghost last: EdgeKey)
    requires forall k :: k in series ==> |series[k]| > 0
    ensures averages.Keys == series.Keys
    ensures forall k :: k in series ==> averages[k] == Stats.Mean(series[k])
    ensures series != map[] ==> last in series && numvals == |series[last]|
  {
    averages := map[];
    numvals := 0;
    last := "";
    ghost var visited := false;
    var keys := series.Keys;
    while keys != {}
      invariant keys <= series.Keys
      invariant averages.Keys == series.Keys - keys
      invariant forall k :: k in averages ==> averages[k] == Stats.Mean(series[k])
      invariant visited ==> last in series && numvals == |series[last]|
      invariant !visited ==> keys == series.Keys
      decreases |keys|
    {
      var key :| key in keys;
      var values := series[key];
      numvals := |values|;
      var avg := SeriesMean(values);
      averages := averages[key := avg];
      last, visited := key, true;
      keys := keys - {key};
    }
    if !visited {
      assert series == map[];
    }
  }

  /** The variance pass: for every series, 0 when `numvals` is below 2 and
      otherwise its squared deviations divided by `numvals - 1`. */
  method VarianceSeries(series: map<EdgeKey, seq<real>>, averages: map<EdgeKey, real>, numvals: int)
    returns (variances: map<EdgeKey, real>)
    requires averages.Keys == series.Keys
    ensures variances.Keys == series.Keys
    ensures forall k :: k in series ==> variances[k] == Stats.LeftoverVariance(series[k], averages[k], numvals)
  {
    variances := map[];
    var keys := series.Keys;
    while keys != {}
      invariant keys <= series.Keys
      invariant variances.Keys == series.Keys - keys
      invariant forall k :: k in variances ==> variances[k] == Stats.LeftoverVariance(series[k], averages[k], numvals)
      decreases |keys|
    {
      var key :| key in keys;
      var v := SeriesVariance(series[key], averages[key], numvals);
      variances := variances[key := v];
      keys := keys - {key};
    }
  }

  /** The variance pass as evidently intended: `numvals` recomputed as the
      length of each edge's own series, so every variance is that edge's
      sample variance. */
  method SampleVarianceSeries(series: map<EdgeKey, seq<real>>, averages: map<EdgeKey, real>)
    returns (variances: map<EdgeKey, real>)
    requires averages.Keys == series.Keys
    requires forall k :: k in series ==> |series[k]| > 0 && averages[k] == Stats.Mean(series[k])
    ensures variances.Keys == series.Keys
    ensures forall k :: k in series ==> variances[k] == Stats.SampleVariance(series[k])
  {
    variances := map[];
    var keys := series.Keys;
    while keys != {}
      invariant keys <= series.Keys
      invariant variances.Keys == series.Keys - keys
      invariant forall k :: k in variances ==> variances[k] == Stats.SampleVariance(series[k])
      decreases |keys|
    {
      var key :| key in keys;
      var values := series[key];
      var v := SeriesVariance(values, averages[key], |values|);
      assert v == Stats.SampleVariance(values);
      variances := variances[key := v];
      keys := keys - {key};
    }
  }

  /** Two edges whose series have different lengths: whichever edge the
      averaging pass visits last, the other edge's variance is computed with
      the wrong sample count and differs from its sample variance. */
  lemma LeftoverNumvalsWrong()
    ensures var s := map["1.1 -> 2.1" := [100.0, 200.0], "2.1 -> 3.1" := [10.0, 20.0, 30.0]];
            forall last :: last in s ==>
              exists k :: k in s &&
                Stats.LeftoverVariance(s[k], Stats.Mean(s[k]), |s[last]|) != Stats.SampleVariance(s[k])
  {
    var a, b := [100.0, 200.0], [10.0, 20.0, 30.0];
    assert a[..1] == [100.0] && [100.0][..0] == [];
    assert b[..2] == [10.0, 20.0] && [10.0, 20.0][..1] == [10.0] && [10.0][..0] == [];
    assert Stats.Mean(a) == 150.0 && Stats.SumSqDev(a, 150.0) == 5000.0;
    assert Stats.Mean(b) == 20.0 && Stats.SumSqDev(b, 20.0) == 200.0;
    assert Stats.LeftoverVariance(a, 150.0, 3) == 2500.0 && Stats.SampleVariance(a) == 5000.0;
    assert Stats.LeftoverVariance(b, 20.0, 2) == 200.0 && Stats.SampleVariance(b) == 100.0;
    var s := map["1.1 -> 2.1" := a, "2.1 -> 3.1" := b];
    forall last | last in s
      ensures exists k :: k in s && Stats.LeftoverVariance(s[k], Stats.Mean(s[k]), |s[last]|) != Stats.SampleVariance(s[k])
    {
      if last == "1.1 -> 2.1" {
        assert s["2.1 -> 3.1"] == b;
      } else {
        assert s["1.1 -> 2.1"] == a;
      }
    }
  }

  /** edge_latencies(group, tlist): looks the group up in the dictionary of
      groups, collects the latency series of every edge of its traces, then
      averages each series; the variance pass reuses `numvals` as the
      averaging pass left it, so every variance is computed with the length
      of the series averaged last. */
  method EdgeLatencies(categories: Grouping.Categories, group: string, tlist: seq<Trace>) returns (r: Result<EdgeStats>)
    ensures group !in categories.buckets ==> r == Err(KeyError)
    ensures group in categories.buckets ==>
              (r.Err? <==> !AllFound(categories.buckets[group], tlist)) && (r.Err? ==> r.error == UndefinedName)
    ensures r.Ok? ==>
              group in categories.buckets && AllFound(categories.buckets[group], tlist) &&
              r.value.series == Series(Resolve(categories.buckets[group], tlist))
    ensures r.Ok? ==>
              var s := r.value;
              s.averages.Keys == s.series.Keys && s.variances.Keys == s.series.Keys &&
              (forall k :: k in s.series ==> |s.series[k]| > 0 && s.averages[k] == Stats.Mean(s.series[k])) &&
              (s.series != map[] ==>
                 exists last :: last in s.series &&
                   forall k :: k in s.series ==>
                     s.variances[k] == Stats.LeftoverVariance(s.series[k], s.averages[k], |s.series[last]|))
    ensures r.Ok? && (forall j, k :: j in r.value.series && k in r.value.series ==> |r.value.series[j]| == |r.value.series[k]|) ==>
              forall k :: k in r.value.series ==> r.value.variances[k] == Stats.SampleVariance(r.value.series[k])
    ensures r.Ok? && SameStructure(Resolve(categories.buckets[group], tlist)) ==>
              forall k :: k in r.value.series ==> r.value.variances[k] == Stats.SampleVariance(r.value.series[k])
  {
    if group !in categories.buckets {
      return Err(KeyError);
    }
    var collected := CollectSeries(categories.buckets[group], tlist);
    if collected.Err? {
      return Err(collected.error);
    }
    var series := collected.value;
    Buckets.AddAllNonEmpty(map[], EdgePairs(Resolve(categories.buckets[group], tlist)));
    var averages, numvals, last := AverageSeries(series);
    var variances := VarianceSeries(series, averages, numvals);
    var resolved := Resolve(categories.buckets[group], tlist);
    if resolved != [] && SameStructure(resolved) {
      SeriesUniform(resolved);
    } else if resolved == [] {
      assert series == map[];
    }
    return Ok(EdgeStats(series, averages, variances));
  }

  /** edge_latencies with the variance pass corrected: every variance is the
      sample variance of its own edge's series, whatever the iteration order. */
  method EdgeLatenciesCorrected(categories: Grouping.Categories, group: string, tlist: seq<Trace>) returns (r: Result<EdgeStats>)
    ensures group !in categories.buckets ==> r == Err(KeyError)
    ensures group in categories.buckets ==>
              (r.Err? <==> !AllFound(categories.buckets[group], tlist)) && (r.Err? ==> r.error == UndefinedName)
    ensures r.Ok? ==>
              group in categories.buckets && AllFound(categories.buckets[group], tlist) &&
              r.value.series == Series(Resolve(categories.buckets[group], tlist))
    ensures r.Ok? ==>
              var s := r.value;
              s.averages.Keys == s.series.Keys && s.variances.Keys == s.series.Keys &&
              forall k :: k in s.series ==>
                |s.series[k]| > 0 && s.averages[k] == Stats.Mean(s.series[k]) &&
                s.variances[k] == Stats.SampleVariance(s.series[k])
  {
    if group !in categories.buckets {
      return Err(KeyError);
    }
    var collected := CollectSeries(categories.buckets[group], tlist);
    if collected.Err? {
      return Err(collected.error);
    }
    var series := collected.value;
    Buckets.AddAllNonEmpty(map[], EdgePairs(Resolve(categories.buckets[group], tlist)));
    var averages, numvals, last := AverageSeries(series);
    var variances := SampleVarianceSeries(series, averages);
    return Ok(EdgeStats(series, averages, variances));
  }
}
