/** Directed graphs over nodes of any type, as sets of edges: paths, cycles and longest paths. */
module Graphs {
  import opened Sequences

  type Edge<N> = (N, N)

  /** A walk along the edges; its length is its number of edges. One node alone is a walk of length 0. */
  ghost predicate IsWalk<N(!new)>(edges: set<Edge<N>>, p: seq<N>) {
    && p != []
    && forall i :: 0 <= i < |p| - 1 ==> (p[i], p[i + 1]) in edges
  }

  ghost predicate IsCycle<N(!new)>(edges: set<Edge<N>>, p: seq<N>) {
    && IsWalk(edges, p)
    && |p| >= 2
    && p[0] == p[|p| - 1]
  }

  ghost predicate HasCycle<N(!new)>(edges: set<Edge<N>>) {
    exists p :: IsCycle(edges, p)
  }

  ghost predicate IsWalkTo<N(!new)>(edges: set<Edge<N>>, p: seq<N>, node: N) {
    IsWalk(edges, p) && p[|p| - 1] == node
  }

  /** `length` is the length of the longest walk that ends at `node`. */
  ghost predicate IsLongestTo<N(!new)>(edges: set<Edge<N>>, node: N, length: nat) {
    && (exists p :: IsWalkTo(edges, p, node) && |p| - 1 == length)
    && (forall p :: IsWalkTo(edges, p, node) ==> |p| - 1 <= length)
  }

  /** An order that lists the source of every edge strictly before its target. */
  ghost predicate IsTopological<N(!new)>(edges: set<Edge<N>>, order: seq<N>) {
    forall e :: e in edges ==>
      exists i, j :: 0 <= i < j < |order| && order[i] == e.0 && order[j] == e.1
  }

  lemma EmptyGraphHasNoCycle<N(!new)>()
    ensures !HasCycle<N>({})
  {
    var none: set<Edge<N>> := {};
    forall p: seq<N> ensures !IsCycle(none, p) {
      assert |p| >= 2 ==> (p[0], p[0 + 1]) !in none;
    }
  }

  /** Along a walk of a graph with a topological order, positions in that order strictly increase. */
  lemma {:induction false} WalkFollowsOrder<N(!new)>(edges: set<Edge<N>>, order: seq<N>, p: seq<N>)
    returns (first: nat, last: nat)
    requires IsTopological(edges, order) && Distinct(order) && IsWalk(edges, p) && |p| >= 2
    ensures first < last < |order| && order[first] == p[0] && order[last] == p[|p| - 1]
  {
    assert (p[0], p[1]) in edges;
    var i, j :| 0 <= i < j < |order| && order[i] == p[0] && order[j] == p[1];
    first, last := i, j;
    if |p| > 2 {
      var rest := p[1..];
      assert IsWalk(edges, rest) by {
        forall k | 0 <= k < |rest| - 1 ensures (rest[k], rest[k + 1]) in edges {
          assert (p[k + 1], p[k + 2]) in edges;
        }
      }
      var f, l := WalkFollowsOrder(edges, order, rest);
      last := l;
    }
  }

  lemma TopologicalOrderExcludesCycles<N(!new)>(edges: set<Edge<N>>, order: seq<N>)
    requires IsTopological(edges, order) && Distinct(order)
    ensures !HasCycle(edges)
  {
    if p :| IsCycle(edges, p) {
      var f, l := WalkFollowsOrder(edges, order, p);
    }
  }

  ghost predicate HasPredecessorIn<N(!new)>(edges: set<Edge<N>>, nodes: set<N>, v: N) {
    exists u :: u in nodes && (u, v) in edges
  }

  /** A non-empty finite set of nodes in which every node has a predecessor contains a cycle. */
  lemma NoSourceForcesCycle<N(!new)>(edges: set<Edge<N>>, nodes: set<N>)
    requires nodes != {}
    requires forall v :: v in nodes ==> HasPredecessorIn(edges, nodes, v)
    ensures HasCycle(edges)
  {
    var v :| v in nodes;
    ExtendBackwards(edges, nodes, [v]);
  }

  lemma {:induction false} ExtendBackwards<N(!new)>(edges: set<Edge<N>>, nodes: set<N>, p: seq<N>)
    requires forall v :: v in nodes ==> HasPredecessorIn(edges, nodes, v)
    requires IsWalk(edges, p) && forall i :: 0 <= i < |p| ==> p[i] in nodes
    ensures HasCycle(edges)
    decreases nodes - set x | x in p
  {
    assert HasPredecessorIn(edges, nodes, p[0]);
    var u :| u in nodes && (u, p[0]) in edges;
    var q := [u] + p;
    assert IsWalk(edges, q);
    if j :| 0 <= j < |p| && p[j] == u {
      var c := q[..j + 2];
      assert IsWalk(edges, c);
      assert IsCycle(edges, c);
    } else {
      var seen, seen' := set x | x in p, set x | x in q;
      assert u in seen' && u !in seen && u in nodes - seen;
      assert seen <= seen' by { assert forall x :: x in p ==> x in q; }
      assert nodes - seen' < nodes - seen;
      ExtendBackwards(edges, nodes, q);
    }
  }

  /** A numbering that grows along every edge bounds the length of every walk. */
  lemma {:induction false} NumberingBoundsWalks<N(!new)>(edges: set<Edge<N>>, column: map<N, nat>, p: seq<N>)
    requires forall e :: e in edges ==> e.0 in column && e.1 in column && column[e.0] + 1 <= column[e.1]
    requires IsWalk(edges, p) && p[|p| - 1] in column
    ensures |p| - 1 <= column[p[|p| - 1]]
  {
    if |p| > 1 {
      var q := p[..|p| - 1];
      assert (p[|p| - 2], p[|p| - 1]) in edges;
      assert IsWalk(edges, q);
      NumberingBoundsWalks(edges, column, q);
    }
  }

  ghost predicate IsJustified<N(!new)>(edges: set<Edge<N>>, column: map<N, nat>, v: N)
    requires v in column
  {
    exists u :: u in column && (u, v) in edges && column[u] + 1 == column[v]
  }

  /** If every positive number is justified by a predecessor one lower, a walk of that length exists. */
  lemma {:induction false} NumberingHasWitness<N(!new)>(edges: set<Edge<N>>, column: map<N, nat>, node: N)
    returns (p: seq<N>)
    requires node in column
    requires forall v :: v in column && column[v] > 0 ==> IsJustified(edges, column, v)
    ensures IsWalkTo(edges, p, node) && |p| - 1 == column[node]
    decreases column[node]
  {
    if column[node] == 0 {
      p := [node];
    } else {
      var u :| u in column && (u, node) in edges && column[u] + 1 == column[node];
      var q := NumberingHasWitness(edges, column, u);
      p := q + [node];
    }
  }

  /** Both together: such a numbering is exactly the longest-path numbering. */
  lemma NumberingIsLongest<N(!new)>(edges: set<Edge<N>>, column: map<N, nat>, node: N)
    requires node in column
    requires forall e :: e in edges ==> e.0 in column && e.1 in column && column[e.0] + 1 <= column[e.1]
    requires forall v :: v in column && column[v] > 0 ==> IsJustified(edges, column, v)
    ensures IsLongestTo(edges, node, column[node])
  {
    var w := NumberingHasWitness(edges, column, node);
    forall p | IsWalkTo(edges, p, node) ensures |p| - 1 <= column[node] {
      NumberingBoundsWalks(edges, column, p);
    }
  }
}
