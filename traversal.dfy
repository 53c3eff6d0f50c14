/** The canonical traversal of a trace's call graph (depth_first_traversal):
    a worklist walk from the root that pops the head of the worklist, emits
    its label the first time that label is seen, and pushes the node's
    children back on the front, first child first in line. */
module Traversal {
  import opened TraceTypes

  /** Every label in `ns` is a node of `g`. */
  predicate InGraph(g: CallGraph, ns: seq<NodeId>) {
    forall i :: 0 <= i < |ns| ==> ns[i] in g.children
  }

  /** The root and every child of every node are nodes of `g`. */
  predicate Closed(g: CallGraph) {
    && g.root in g.children
    && forall n, i :: n in g.children && 0 <= i < |g.children[n]| ==> g.children[n][i] in g.children
  }

  /** `rank` witnesses that `g` is acyclic: every child ranks strictly below
      its parent. */
  ghost predicate Ranked(g: CallGraph, rank: map<NodeId, nat>) {
    && Closed(g)
    && g.children.Keys <= rank.Keys
    && forall n, i :: n in g.children && 0 <= i < |g.children[n]| ==> rank[g.children[n][i]] < rank[n]
  }

  /** get_rev_children: a node's children, last child first. */
  function Reverse(s: seq<NodeId>): (r: seq<NodeId>)
    ensures |r| == |s|
    ensures forall i :: 0 <= i < |s| ==> r[i] == s[|s| - 1 - i]
  {
    if s == [] then [] else Reverse(s[1..]) + [s[0]]
  }

  // ---------------------------------------------------------------------
  // Reference definition: preorder of the unfolded path tree
  // ---------------------------------------------------------------------

  /** One more than the largest rank in `ns` (0 when empty). */
  ghost function Bound(g: CallGraph, rank: map<NodeId, nat>, ns: seq<NodeId>): (b: nat)
    requires Ranked(g, rank) && InGraph(g, ns)
    ensures forall i :: 0 <= i < |ns| ==> rank[ns[i]] < b
    ensures b == 0 || exists i :: 0 <= i < |ns| && b == rank[ns[i]] + 1
  {
    if ns == [] then 0
    else
      var b := Bound(g, rank, ns[1..]);
      assert forall i :: 1 <= i < |ns| ==> ns[i] == ns[1..][i - 1];
      if rank[ns[0]] + 1 > b then rank[ns[0]] + 1 else b
  }

  /** The preorder of the tree of all paths from `n`: a node, then the
      unfolding of each of its children in child order. A node reachable
      along several paths occurs once per path. */
  ghost function Unfold(g: CallGraph, rank: map<NodeId, nat>, n: NodeId): seq<NodeId>
    requires Ranked(g, rank) && n in g.children
    decreases rank[n] + 1, 0
  {
    [n] + UnfoldAll(g, rank, g.children[n])
  }

  /** The unfoldings of a sequence of nodes, one after the other. */
  ghost function UnfoldAll(g: CallGraph, rank: map<NodeId, nat>, ns: seq<NodeId>): seq<NodeId>
    requires Ranked(g, rank) && InGraph(g, ns)
    decreases Bound(g, rank, ns), |ns|
  {
    if ns == [] then [] else Unfold(g, rank, ns[0]) + UnfoldAll(g, rank, ns[1..])
  }

  /** Keeps the first occurrence of every label, in order. */
  function Dedup(s: seq<NodeId>): (r: seq<NodeId>)
    ensures forall x :: x in r <==> x in s
    ensures forall i, j :: 0 <= i < j < |r| ==> r[i] != r[j]
  {
    if s == [] then []
    else
      var d := Dedup(s[..|s| - 1]);
      if s[|s| - 1] in d then d else d + [s[|s| - 1]]
  }

  /** The position of the first occurrence of `x` in `s`. */
  function IndexOf(s: seq<NodeId>, x: NodeId): (i: nat)
    requires x in s
    ensures i < |s| && s[i] == x
    ensures forall j :: 0 <= j < i ==> s[j] != x
  {
    if s[0] == x then 0
    else
      assert x in s[1..];
      1 + IndexOf(s[1..], x)
  }

  lemma IndexOfUnique(s: seq<NodeId>, x: NodeId, k: nat)
    requires k < |s| && s[k] == x
    requires forall j :: 0 <= j < k ==> s[j] != x
    ensures IndexOf(s, x) == k
  {
  }

  /** A label's first position is unchanged by appending to the sequence. */
  lemma IndexOfExtend(s: seq<NodeId>, x: NodeId, y: NodeId)
    requires y in s
    ensures IndexOf(s + [x], y) == IndexOf(s, y)
  {
    IndexOfUnique(s + [x], y, IndexOf(s, y));
  }

  /** Dedup lists the labels in the order of their first occurrence. */
  lemma {:induction false} DedupFirstOccurrenceOrder(s: seq<NodeId>)
    ensures forall i, j :: 0 <= i < j < |Dedup(s)| ==> IndexOf(s, Dedup(s)[i]) < IndexOf(s, Dedup(s)[j])
  {
    if s != [] {
      var p, x := s[..|s| - 1], s[|s| - 1];
      assert s == p + [x];
      DedupFirstOccurrenceOrder(p);
      var d := Dedup(p);
      forall y | y in p ensures IndexOf(s, y) == IndexOf(p, y) {
        IndexOfExtend(p, x, y);
      }
      if x !in d {
        IndexOfUnique(s, x, |p|);
      }
    }
  }

  /** The first label emitted is the first label seen. */
  lemma DedupHead(s: seq<NodeId>)
    requires s != []
    ensures Dedup(s) != [] && Dedup(s)[0] == s[0]
  {
    var d := Dedup(s);
    assert s[0] in d;
    DedupFirstOccurrenceOrder(s);
    IndexOfUnique(s, s[0], 0);
  }

  // ---------------------------------------------------------------------
  // Reachability
  // ---------------------------------------------------------------------

  /** A non-empty walk along child edges of `g`. */
  ghost predicate IsPath(g: CallGraph, p: seq<NodeId>) {
    && |p| > 0
    && InGraph(g, p)
    && forall i :: 0 <= i < |p| - 1 ==> p[i + 1] in g.children[p[i]]
  }

  ghost predicate Reachable(g: CallGraph, from: NodeId, to: NodeId) {
    exists p :: IsPath(g, p) && p[0] == from && p[|p| - 1] == to
  }

  lemma {:induction false} UnfoldAllMember(g: CallGraph, rank: map<NodeId, nat>, ns: seq<NodeId>, x: NodeId)
    returns (i: nat)
    requires Ranked(g, rank) && InGraph(g, ns) && x in UnfoldAll(g, rank, ns)
    ensures i < |ns| && x in Unfold(g, rank, ns[i])
    decreases |ns|
  {
    if x in Unfold(g, rank, ns[0]) {
      i := 0;
    } else {
      var j := UnfoldAllMember(g, rank, ns[1..], x);
      i := j + 1;
    }
  }

  lemma {:induction false} UnfoldAllContains(g: CallGraph, rank: map<NodeId, nat>, ns: seq<NodeId>, k: nat)
    requires Ranked(g, rank) && InGraph(g, ns) && k < |ns|
    ensures forall x :: x in Unfold(g, rank, ns[k]) ==> x in UnfoldAll(g, rank, ns)
    decreases k
  {
    if k > 0 {
      UnfoldAllContains(g, rank, ns[1..], k - 1);
    }
  }

  /** Every label in the unfolding of `n` is reachable from `n`. */
  lemma {:induction false} UnfoldReachable(g: CallGraph, rank: map<NodeId, nat>, n: NodeId, x: NodeId)
    requires Ranked(g, rank) && n in g.children && x in Unfold(g, rank, n)
    ensures Reachable(g, n, x)
    decreases rank[n]
  {
    if x == n {
      assert IsPath(g, [n]);
    } else {
      var ch := g.children[n];
      var i := UnfoldAllMember(g, rank, ch, x);
      UnfoldReachable(g, rank, ch[i], x);
      var q :| IsPath(g, q) && q[0] == ch[i] && q[|q| - 1] == x;
      PathCons(g, n, q);
    }
  }

  lemma PathCons(g: CallGraph, n: NodeId, q: seq<NodeId>)
    requires IsPath(g, q) && n in g.children && q[0] in g.children[n]
    ensures IsPath(g, [n] + q)
  {
  }

  lemma PathTail(g: CallGraph, p: seq<NodeId>)
    requires IsPath(g, p) && |p| > 1
    ensures IsPath(g, p[1..])
  {
  }

  /** The last node of every path from `p[0]` occurs in the unfolding of `p[0]`. */
  lemma {:induction false} PathInUnfold(g: CallGraph, rank: map<NodeId, nat>, p: seq<NodeId>)
    requires Ranked(g, rank) && IsPath(g, p)
    ensures p[|p| - 1] in Unfold(g, rank, p[0])
    decreases |p|
  {
    if |p| > 1 {
      var q := p[1..];
      PathTail(g, p);
      PathInUnfold(g, rank, q);
      var ch := g.children[p[0]];
      var k :| 0 <= k < |ch| && ch[k] == p[1];
      UnfoldAllContains(g, rank, ch, k);
    }
  }

  /** The labels of the unfolding are exactly the labels reachable from the root. */
  lemma UnfoldIsReachableSet(g: CallGraph, rank: map<NodeId, nat>, n: NodeId)
    requires Ranked(g, rank) && n in g.children
    ensures forall x :: x in Unfold(g, rank, n) <==> Reachable(g, n, x)
  {
    forall x | Reachable(g, n, x) ensures x in Unfold(g, rank, n) {
      var p :| IsPath(g, p) && p[0] == n && p[|p| - 1] == x;
      PathInUnfold(g, rank, p);
    }
    forall x | x in Unfold(g, rank, n) ensures Reachable(g, n, x) {
      UnfoldReachable(g, rank, n, x);
    }
  }

  // ---------------------------------------------------------------------
  // One iteration of the worklist loop
  // ---------------------------------------------------------------------

  /** The worklist after one iteration: the head is popped and its children
      take its place, the first child at the front. */
  function Step(g: CallGraph, ws: seq<NodeId>): (r: seq<NodeId>)
    requires Closed(g) && InGraph(g, ws) && ws != []
    ensures InGraph(g, r)
  {
    g.children[ws[0]] + ws[1..]
  }

  lemma {:induction false} UnfoldAllAppend(g: CallGraph, rank: map<NodeId, nat>, a: seq<NodeId>, b: seq<NodeId>)
    requires Ranked(g, rank) && InGraph(g, a) && InGraph(g, b)
    ensures UnfoldAll(g, rank, a + b) == UnfoldAll(g, rank, a) + UnfoldAll(g, rank, b)
    decreases |a|
  {
    if a == [] {
      assert a + b == b;
    } else {
      assert (a + b)[1..] == a[1..] + b;
      UnfoldAllAppend(g, rank, a[1..], b);
    }
  }

  /** Each iteration consumes exactly the head of the pending unfolding, so
      the total number of paths below the worklist drops by exactly one. */
  lemma StepUnfold(g: CallGraph, rank: map<NodeId, nat>, ws: seq<NodeId>)
    requires Ranked(g, rank) && InGraph(g, ws) && ws != []
    ensures UnfoldAll(g, rank, ws) == [ws[0]] + UnfoldAll(g, rank, Step(g, ws))
    ensures |UnfoldAll(g, rank, Step(g, ws))| + 1 == |UnfoldAll(g, rank, ws)|
  {
    UnfoldAllAppend(g, rank, g.children[ws[0]], ws[1..]);
  }

  /** The worklist after `k` iterations (the empty worklist stays put). */
  function Steps(g: CallGraph, ws: seq<NodeId>, k: nat): (r: seq<NodeId>)
    requires Closed(g) && InGraph(g, ws)
    ensures InGraph(g, r)
    decreases k
  {
    if k == 0 || ws == [] then ws else Steps(g, Step(g, ws), k - 1)
  }

  /** A closed walk: a path whose last node has the first node as a child. */
  ghost predicate IsCycle(g: CallGraph, cyc: seq<NodeId>) {
    IsPath(g, cyc) && cyc[0] in g.children[cyc[|cyc| - 1]]
  }

  /** A worklist holding a node from which a cycle is reachable still holds
      one after an iteration: the node either stays, or is popped and the
      next node of its path to the cycle (or of the cycle) is pushed. */
  lemma StepKeepsCycle(g: CallGraph, cyc: seq<NodeId>, ws: seq<NodeId>, x: NodeId, c: NodeId)
    requires Closed(g) && IsCycle(g, cyc) && InGraph(g, ws)
    requires x in ws && c in cyc && Reachable(g, x, c)
    ensures exists y, d :: y in Step(g, ws) && d in cyc && Reachable(g, y, d)
  {
    var r := Step(g, ws);
    var p :| IsPath(g, p) && p[0] == x && p[|p| - 1] == c;
    if ws[0] == x {
      if |p| > 1 {
        PathTail(g, p);
        assert p[1] in g.children[ws[0]];
        assert p[1] in r && Reachable(g, p[1], c);
      } else {
        var i :| 0 <= i < |cyc| && cyc[i] == x;
        var y := if i + 1 < |cyc| then cyc[i + 1] else cyc[0];
        assert y in g.children[ws[0]];
        assert IsPath(g, [y]);
        assert y in r && y in cyc && Reachable(g, y, y);
      }
    } else {
      var j :| 0 <= j < |ws| && ws[j] == x;
      assert r[|g.children[ws[0]]| + j - 1] == x;
    }
  }

  /** On a graph with a cycle reachable from the worklist the loop never
      ends: since every visit re-pushes the children, the worklist is never
      empty after any number of iterations. */
  lemma {:induction false} CycleNeverDrains(g: CallGraph, cyc: seq<NodeId>, ws: seq<NodeId>, x: NodeId, c: NodeId, k: nat)
    requires Closed(g) && IsCycle(g, cyc) && InGraph(g, ws)
    requires x in ws && c in cyc && Reachable(g, x, c)
    ensures Steps(g, ws, k) != []
    decreases k
  {
    if k > 0 {
      StepKeepsCycle(g, cyc, ws, x, c);
      var y, d :| y in Step(g, ws) && d in cyc && Reachable(g, y, d);
      CycleNeverDrains(g, cyc, Step(g, ws), y, d, k - 1);
    }
  }

  /** depth_first_traversal starts from the worklist `[root]`: on a graph
      with a cycle reachable from the root it never returns. */
  lemma CycleBelowRootNeverDrains(g: CallGraph, cyc: seq<NodeId>, k: nat)
    requires Closed(g) && IsCycle(g, cyc) && Reachable(g, g.root, cyc[0])
    ensures Steps(g, [g.root], k) != []
  {
    CycleNeverDrains(g, cyc, [g.root], g.root, cyc[0], k);
  }

  /** A cycle the root cannot reach does not stop the loop: with the
      unreachable node `"b"` on a self-loop, the worklist `["a"]` drains
      after one iteration. */
  lemma UnreachableCycleDrains()
    ensures var g := CallGraph(map["a" := [], "b" := ["b"]], "a");
            Closed(g) && IsCycle(g, ["b"]) && Steps(g, [g.root], 1) == []
  {
    var g := CallGraph(map["a" := [], "b" := ["b"]], "a");
    assert IsPath(g, ["b"]);
    assert Step(g, ["a"]) == [];
  }

  /** Rank drops by at least one along every edge of a path. */
  lemma {:induction false} RankAlongPath(g: CallGraph, rank: map<NodeId, nat>, p: seq<NodeId>, k: nat)
    requires Ranked(g, rank) && IsPath(g, p) && k < |p|
    ensures rank[p[k]] + k <= rank[p[0]]
    decreases k
  {
    if k > 0 {
      RankAlongPath(g, rank, p, k - 1);
      assert p[k] in g.children[p[k - 1]];
    }
  }

  /** A ranked graph has no cycle: the rank assumption is acyclicity. */
  lemma RankedHasNoCycle(g: CallGraph, rank: map<NodeId, nat>, cyc: seq<NodeId>)
    requires Ranked(g, rank)
    ensures !IsCycle(g, cyc)
  {
    if IsPath(g, cyc) {
      RankAlongPath(g, rank, cyc, |cyc| - 1);
    }
  }

  // ---------------------------------------------------------------------
  // depth_first_traversal
  // ---------------------------------------------------------------------

  /** Popping the head of the worklist into `popped` and pushing its
      children keeps popped + pending unfolding unchanged. */
  lemma StepInvariant(g: CallGraph, rank: map<NodeId, nat>, popped: seq<NodeId>, ws: seq<NodeId>)
    requires Ranked(g, rank) && InGraph(g, ws) && ws != []
    ensures (popped + [ws[0]]) + UnfoldAll(g, rank, Step(g, ws)) == popped + UnfoldAll(g, rank, ws)
    ensures |UnfoldAll(g, rank, Step(g, ws))| < |UnfoldAll(g, rank, ws)|
  {
    StepUnfold(g, rank, ws);
  }

  /** The inner loop: pushes get_rev_children(node) one by one on the front
      of the worklist, which leaves the children in their own order in front. */
  method PushReversed(children: seq<NodeId>, stack: seq<NodeId>) returns (s: seq<NodeId>)
    ensures s == children + stack
  {
    s := stack;
    var rev := Reverse(children);
    var k := 0;
    while k < |rev|
      invariant 0 <= k <= |rev|
      invariant s == children[|children| - k..] + stack
    {
      assert children[|children| - k - 1..] == [rev[k]] + children[|children| - k..];
      s := [rev[k]] + s;
      k := k + 1;
    }
  }

  lemma DedupSnoc(s: seq<NodeId>, x: NodeId)
    ensures Dedup(s + [x]) == if x in Dedup(s) then Dedup(s) else Dedup(s) + [x]
  {
    assert (s + [x])[..|s|] == s;
  }

  /** The ids of the nodes seen from the root, in worklist order, without
      duplicates. */
  method DepthFirstTraversal(g: CallGraph, ghost rank: map<NodeId, nat>) returns (nodes: seq<NodeId>)
    requires Ranked(g, rank)
    ensures nodes == Dedup(Unfold(g, rank, g.root))
    ensures |nodes| > 0 && nodes[0] == g.root
    ensures forall i, j :: 0 <= i < j < |nodes| ==> nodes[i] != nodes[j]
    ensures forall x :: x in nodes <==> Reachable(g, g.root, x)
  {
    nodes := [];
    var stack := [g.root];
    ghost var popped: seq<NodeId> := [];
    assert UnfoldAll(g, rank, stack) == Unfold(g, rank, g.root) + UnfoldAll(g, rank, []);
    while stack != []
      invariant InGraph(g, stack)
      invariant popped + UnfoldAll(g, rank, stack) == Unfold(g, rank, g.root)
      invariant nodes == Dedup(popped)
      decreases |UnfoldAll(g, rank, stack)|
    {
      StepInvariant(g, rank, popped, stack);
      var cur := stack[0];
      stack := stack[1..];
      if cur !in nodes {
        nodes := nodes + [cur];
      }
      stack := PushReversed(g.children[cur], stack);
      DedupSnoc(popped, cur);
      popped := popped + [cur];
    }
    assert popped == Unfold(g, rank, g.root);
    DedupHead(popped);
    UnfoldIsReachableSet(g, rank, g.root);
  }
}
