/** A finite graph in which every node has a successor has a cycle. */
module Cycles {

  ghost predicate Path<T(!new)>(edge: (T, T) -> bool, p: seq<T>) {
    forall i :: 0 <= i < |p| - 1 ==> edge(p[i], p[i + 1])
  }

  ghost predicate HasSuccessor<T(!new)>(edge: (T, T) -> bool, nodes: set<T>, u: T) {
    exists v :: v in nodes && edge(u, v)
  }

  lemma {:induction false} Walk<T(!new)>(edge: (T, T) -> bool, nodes: set<T>, start: T, n: nat) returns (p: seq<T>)
    requires start in nodes
    requires forall u {:trigger HasSuccessor(edge, nodes, u)} :: u in nodes ==> HasSuccessor(edge, nodes, u)
    ensures |p| == n + 1 && Path(edge, p) && forall i :: 0 <= i < |p| ==> p[i] in nodes
  {
    if n == 0 {
      p := [start];
    } else {
      var q := Walk(edge, nodes, start, n - 1);
      assert HasSuccessor(edge, nodes, q[n - 1]);
      var v :| v in nodes && edge(q[n - 1], v);
      p := q + [v];
    }
  }

  lemma {:induction false} Pigeonhole<T>(p: seq<T>, within: set<T>) returns (i: nat, j: nat)
    requires |p| > |within| && forall k :: 0 <= k < |p| ==> p[k] in within
    ensures i < j < |p| && p[i] == p[j]
  {
    var n := |p| - 1;
    if k :| 0 <= k < n && p[k] == p[n] {
      return k, n;
    }
    i, j := Pigeonhole(p[..n], within - {p[n]});
  }

  lemma EndlessWalkReturns<T(!new)>(edge: (T, T) -> bool, nodes: set<T>, start: T) returns (p: seq<T>)
    requires start in nodes
    requires forall u {:trigger HasSuccessor(edge, nodes, u)} :: u in nodes ==> HasSuccessor(edge, nodes, u)
    ensures |p| >= 2 && p[0] == p[|p| - 1] && Path(edge, p)
  {
    var w := Walk(edge, nodes, start, |nodes|);
    var i, j := Pigeonhole(w, nodes);
    p := w[i..j + 1];
  }
}
