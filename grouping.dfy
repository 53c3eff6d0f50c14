/** Grouping traces by structural key (group_traces) and finding a trace by
    its identifier (trace_lookup). */
module Grouping {
  import opened TraceTypes
  import Buckets

  /** The first trace in `tlist` with identifier `tid`. A miss raises the
      error of evaluating the undefined name `none`. */
  function TraceLookup(tid: TraceId, tlist: seq<Trace>): (r: Result<Trace>)
    ensures r.Ok? <==> exists i :: 0 <= i < |tlist| && tlist[i].traceId == tid
    ensures r.Ok? ==> r.value in tlist && r.value.traceId == tid
    ensures r.Err? ==> r.error == UndefinedName
  {
    if tlist == [] then Err(UndefinedName)
    else if tlist[0].traceId == tid then Ok(tlist[0])
    else
      var r := TraceLookup(tid, tlist[1..]);
      assert forall i :: 0 < i < |tlist| ==> tlist[i] == tlist[1..][i - 1];
      r
  }

  /** The lookup returns the earliest trace carrying the identifier, even
      when several do. */
  lemma {:induction false} TraceLookupFirst(tid: TraceId, tlist: seq<Trace>, i: nat)
    requires i < |tlist| && tlist[i].traceId == tid
    requires forall j :: 0 <= j < i ==> tlist[j].traceId != tid
    ensures TraceLookup(tid, tlist) == Ok(tlist[i])
  {
    if i > 0 {
      TraceLookupFirst(tid, tlist[1..], i - 1);
    }
  }

  /** Every trace in the list is found by its identifier when identifiers are unique. */
  lemma TraceLookupUnique(tlist: seq<Trace>, i: nat)
    requires i < |tlist|
    requires forall j, k :: 0 <= j < k < |tlist| ==> tlist[j].traceId != tlist[k].traceId
    ensures TraceLookup(tlist[i].traceId, tlist) == Ok(tlist[i])
  {
    TraceLookupFirst(tlist[i].traceId, tlist, i);
  }

  /** The (key, identifier) pair each trace contributes to the index, in order. */
  function HashPairs(ts: seq<Trace>): (r: seq<(string, TraceId)>)
    ensures |r| == |ts|
    ensures forall i :: 0 <= i < |ts| ==> r[i] == (ts[i].hashval, ts[i].traceId)
  {
    seq(|ts|, i requires 0 <= i < |ts| => (ts[i].hashval, ts[i].traceId))
  }

  /** The index that grouping `ts` one trace at a time builds from an empty one. */
  function Index(ts: seq<Trace>): map<string, seq<TraceId>> {
    Buckets.AddAll(map[], HashPairs(ts))
  }

  /** The keys of the index are exactly the keys of the grouped traces, and
      each bucket lists the identifiers of the traces with that key in
      arrival order. */
  lemma IndexBuckets(ts: seq<Trace>)
    ensures Index(ts).Keys == set i | 0 <= i < |ts| :: ts[i].hashval
    ensures forall h :: h in Index(ts) ==> Index(ts)[h] == Buckets.Filter(HashPairs(ts), h)
  {
    var pairs := HashPairs(ts);
    Buckets.AddAllIsFilter(map[], pairs);
    assert Buckets.KeysOf(pairs) == set i | 0 <= i < |ts| :: ts[i].hashval;
  }

  /** An identifier is in the bucket of `h` exactly when some grouped trace
      has that identifier and key `h`. */
  lemma IndexMembership(ts: seq<Trace>, h: string, tid: TraceId)
    ensures (h in Index(ts) && tid in Index(ts)[h])
        <==> exists i :: 0 <= i < |ts| && ts[i].hashval == h && ts[i].traceId == tid
  {
    var pairs := HashPairs(ts);
    IndexBuckets(ts);
    Buckets.FilterMembers(pairs, h);
    if h in Index(ts) && tid in Index(ts)[h] {
      var j :| 0 <= j < |Buckets.Filter(pairs, h)| && Buckets.Filter(pairs, h)[j] == tid;
      assert (h, tid) in pairs;
    }
    if exists i :: 0 <= i < |ts| && ts[i].hashval == h && ts[i].traceId == tid {
      var i :| 0 <= i < |ts| && ts[i].hashval == h && ts[i].traceId == tid;
      assert pairs[i] == (h, tid);
    }
  }

  /** With unique identifiers, the buckets are disjoint: every identifier is
      in the bucket of its own trace's key and in no other. */
  lemma IndexDisjoint(ts: seq<Trace>, h1: string, h2: string, tid: TraceId)
    requires forall j, k :: 0 <= j < k < |ts| ==> ts[j].traceId != ts[k].traceId
    requires h1 in Index(ts) && tid in Index(ts)[h1]
    requires h2 in Index(ts) && tid in Index(ts)[h2]
    ensures h1 == h2
  {
    IndexMembership(ts, h1, tid);
    IndexMembership(ts, h2, tid);
  }

  /** The buckets together hold one identifier per grouped trace. */
  lemma IndexTotal(ts: seq<Trace>)
    ensures Buckets.TotalSize(Index(ts)) == |ts|
  {
    var empty: map<string, seq<TraceId>> := map[];
    Buckets.TotalSizeAddAll(empty, HashPairs(ts));
    assert Buckets.TotalSize(empty) == 0;
  }

  /** The module-level dictionary of groups: structural key -> identifiers. */
  class Categories {
    var buckets: map<string, seq<TraceId>>

    constructor()
      ensures buckets == map[]
    {
      buckets := map[];
    }

    /** group_traces(trace): appends the trace's identifier to the bucket of
        its key, creating the bucket when the key is new. */
    method GroupTrace(t: Trace)
      modifies this
      ensures buckets.Keys == old(buckets).Keys + {t.hashval}
      ensures t.hashval in old(buckets) ==> buckets[t.hashval] == old(buckets)[t.hashval] + [t.traceId]
      ensures t.hashval !in old(buckets) ==> buckets[t.hashval] == [t.traceId]
      ensures forall h :: h in old(buckets) && h != t.hashval ==> buckets[h] == old(buckets)[h]
      ensures buckets == Buckets.Add(old(buckets), t.hashval, t.traceId)
    {
      if t.hashval in buckets {
        buckets := buckets[t.hashval := buckets[t.hashval] + [t.traceId]];
      } else {
        buckets := buckets[t.hashval := [t.traceId]];
      }
    }
  }

  /** Grouping the traces of `ts` one after another into a fresh dictionary
      yields Index(ts). */
  lemma IndexSnoc(ts: seq<Trace>, t: Trace)
    ensures Index(ts + [t]) == Buckets.Add(Index(ts), t.hashval, t.traceId)
  {
    assert HashPairs(ts + [t])[..|ts|] == HashPairs(ts);
  }
}
