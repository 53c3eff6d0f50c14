/** The structural key of a trace (hashval): the traversal's labels are
    joined into one string, and the captured digit of every left-to-right,
    non-overlapping match of the regular expression `(\d)\.1` is kept. */
module Fingerprint {
  import opened TraceTypes
  import Traversal

  /** `\d` on a byte string: an ASCII decimal digit. */
  predicate IsDigit(c: char) {
    '0' <= c <= '9'
  }

  /** The pattern `(\d)\.1` matches the three characters of `s` starting at `i`. */
  predicate MatchAt(s: string, i: int) {
    0 <= i && i + 3 <= |s| && IsDigit(s[i]) && s[i + 1] == '.' && s[i + 2] == '1'
  }

  /** The start of every match the scan finds from position `from` on: it
      tries each position in turn and, after a match, resumes right after
      it. Every start is a match, and starts are at least a match's length
      apart. */
  function MatchStarts(s: string, from: nat): (ps: seq<nat>)
    ensures forall k :: 0 <= k < |ps| ==> from <= ps[k] && MatchAt(s, ps[k])
    ensures forall k :: 0 <= k < |ps| - 1 ==> ps[k] + 3 <= ps[k + 1]
    decreases |s| - from
  {
    if from + 3 > |s| then []
    else if MatchAt(s, from) then [from] + MatchStarts(s, from + 3)
    else MatchStarts(s, from + 1)
  }

  /** The scan misses no match it could have taken: every match it skips
      overlaps one it took, so the starts are exactly the greedy
      left-to-right non-overlapping matches. */
  lemma {:induction false} MatchStartsComplete(s: string, from: nat, i: nat)
    requires from <= i && MatchAt(s, i)
    ensures i in MatchStarts(s, from)
         || exists k :: 0 <= k < |MatchStarts(s, from)| && MatchStarts(s, from)[k] < i < MatchStarts(s, from)[k] + 3
    decreases |s| - from
  {
    var ps := MatchStarts(s, from);
    if MatchAt(s, from) {
      assert ps[0] == from;
      if i >= from + 3 {
        MatchStartsComplete(s, from + 3, i);
        var rest := MatchStarts(s, from + 3);
        assert forall k :: 0 <= k < |rest| ==> ps[k + 1] == rest[k];
      }
    } else {
      MatchStartsComplete(s, from + 1, i);
    }
  }

  /** re.findall(r'(\d)\.1', s): the captured digit of every match, in order. */
  function FindAll(s: string): (r: string)
    ensures |r| == |MatchStarts(s, 0)|
    ensures forall k :: 0 <= k < |r| ==> IsDigit(r[k]) && r[k] == s[MatchStarts(s, 0)[k]]
  {
    var ps := MatchStarts(s, 0);
    seq(|ps|, k requires 0 <= k < |ps| => s[ps[k]])
  }

  /** "".join(ids) */
  function Join(ids: seq<NodeId>): string {
    if ids == [] then "" else ids[0] + Join(ids[1..])
  }

  /** hashval applied to the traversal's label sequence. */
  function HashKey(ids: seq<NodeId>): string {
    FindAll(Join(ids))
  }

  /** The key is empty exactly when the joined labels contain no match. */
  lemma EmptyKeyIffNoMatch(s: string)
    ensures FindAll(s) == [] <==> forall i :: !MatchAt(s, i)
  {
    var ps := MatchStarts(s, 0);
    if ps != [] {
      assert MatchAt(s, ps[0]);
    }
    forall i | MatchAt(s, i) ensures ps != [] {
      MatchStartsComplete(s, 0, i);
    }
  }

  function Shift(ps: seq<nat>, d: nat): (r: seq<nat>)
    ensures |r| == |ps| && forall k :: 0 <= k < |ps| ==> r[k] == ps[k] + d
  {
    seq(|ps|, k requires 0 <= k < |ps| => ps[k] + d)
  }

  lemma MatchAtAfterPrefix(p: string, s: string, i: nat)
    ensures MatchAt(p + s, |p| + i) <==> MatchAt(s, i)
  {
    if i + 3 <= |s| {
      var t := p + s;
      assert t[|p| + i] == s[i] && t[|p| + i + 1] == s[i + 1] && t[|p| + i + 2] == s[i + 2];
    }
  }

  /** Scanning a string behind a prefix finds the same matches, shifted,
      once the scan has passed the prefix. */
  lemma {:induction false} ScanAfterPrefix(p: string, s: string, from: nat)
    ensures MatchStarts(p + s, |p| + from) == Shift(MatchStarts(s, from), |p|)
    decreases |s| - from
  {
    var t := p + s;
    if from + 3 <= |s| {
      MatchAtAfterPrefix(p, s, from);
      if MatchAt(s, from) {
        var rest := MatchStarts(s, from + 3);
        calc {
          MatchStarts(t, |p| + from);
          [|p| + from] + MatchStarts(t, |p| + from + 3);
          { ScanAfterPrefix(p, s, from + 3); }
          [|p| + from] + Shift(rest, |p|);
          { ShiftCons(from, rest, |p|); }
          Shift([from] + rest, |p|);
        }
      } else {
        calc {
          MatchStarts(t, |p| + from);
          MatchStarts(t, |p| + from + 1);
          { ScanAfterPrefix(p, s, from + 1); }
          Shift(MatchStarts(s, from + 1), |p|);
        }
      }
    } else {
      assert MatchStarts(t, |p| + from) == [];
    }
  }

  lemma ShiftCons(x: nat, ps: seq<nat>, d: nat)
    ensures Shift([x] + ps, d) == [x + d] + Shift(ps, d)
  {
  }

  /** A label `d.1...` contributes its leading digit whatever follows the
      `1`: "2.10" contributes the same "2" as "2.1". */
  lemma FirstChildLabel(d: char, rest: string)
    requires IsDigit(d)
    ensures FindAll([d, '.', '1'] + rest) == [d] + FindAll(rest)
  {
    var m := [d, '.', '1'];
    var t := m + rest;
    assert MatchAt(t, 0);
    var ps, qs := MatchStarts(t, 0), MatchStarts(rest, 0);
    ScanAfterPrefix(m, rest, 0);
    assert ps == [0] + Shift(qs, 3);
    var r, r' := FindAll(t), FindAll(rest);
    assert r[0] == d;
    forall k | 0 <= k < |r'| ensures r[k + 1] == r'[k] {
      assert ps[k + 1] == qs[k] + 3;
      assert t[qs[k] + 3] == rest[qs[k]];
    }
    assert r == [d] + r';
  }

  /** Matching runs over the joined string, not label by label: a label
      ending in a digit followed by one beginning with `.1` contributes. The
      labels here are not dotted-decimal ids; for ids of the form
      digits '.' digits no match can cross a label boundary (a match needs
      a digit, then a dot, then `1`, and no such id starts with a dot or ends
      with one), so real traces get the per-label keys joined. */
  lemma MatchSpansLabels()
    ensures HashKey(["1", ".1"]) == "1"
    ensures HashKey(["1"]) + HashKey([".1"]) == ""
  {
    assert Join(["1", ".1"]) == "1.1";
    assert Join(["1"]) == "1";
    assert Join([".1"]) == ".1";
    FirstChildLabel('1', "");
    assert MatchStarts("1", 0) == [];
    assert MatchStarts(".1", 0) == [];
  }

  /** Two first-child labels give their two leading digits. */
  lemma TwoFirstChildren()
    ensures HashKey(["1.1", "2.1"]) == "12"
    ensures HashKey(["2.10"]) == HashKey(["2.1"]) == "2"
  {
    assert Join(["1.1", "2.1"]) == "1.1" + "2.1";
    FirstChildLabel('1', "2.1");
    FirstChildLabel('2', "");
    assert Join(["2.10"]) == ['2', '.', '1'] + "0";
    assert Join(["2.1"]) == ['2', '.', '1'] + "";
    FirstChildLabel('2', "0");
    assert MatchStarts("0", 0) == [];
  }

  /** hashval(trace): the key of the trace's call graph. */
  method HashVal(g: CallGraph, ghost rank: map<NodeId, nat>) returns (key: string)
    requires Traversal.Ranked(g, rank)
    ensures key == HashKey(Traversal.Dedup(Traversal.Unfold(g, rank, g.root)))
    ensures forall k :: 0 <= k < |key| ==> IsDigit(key[k])
  {
    var nodes := Traversal.DepthFirstTraversal(g, rank);
    key := FindAll(Join(nodes));
  }
}
