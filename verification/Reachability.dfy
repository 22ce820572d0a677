/** Reachability over a finite graph given by its adjacency lists. */
module Reachability {
  /** x can be reached from root in k steps. */
  ghost predicate ReachIn<T>(edges: map<T, seq<T>>, root: T, x: T, k: nat)
  {
    if k == 0 then x == root
    else exists y :: y in edges && ReachIn(edges, root, y, k - 1) && x in edges[y]
  }

  ghost predicate Reachable<T>(edges: map<T, seq<T>>, root: T, x: T)
  {
    exists k: nat :: ReachIn(edges, root, x, k)
  }

  lemma RootReachable<T>(edges: map<T, seq<T>>, root: T)
    ensures Reachable(edges, root, root)
  {
    assert ReachIn(edges, root, root, 0);
  }

  lemma ReachStep<T>(edges: map<T, seq<T>>, root: T, x: T, y: T)
    requires Reachable(edges, root, x) && x in edges && y in edges[x]
    ensures Reachable(edges, root, y)
  {
    var k: nat :| ReachIn(edges, root, x, k);
    assert ReachIn(edges, root, y, k + 1);
  }

  ghost predicate Closed<T>(edges: map<T, seq<T>>, s: set<T>)
  {
    forall x, y :: x in s && x in edges && y in edges[x] ==> y in s
  }

  lemma {:induction false} ReachInClosed<T>(edges: map<T, seq<T>>, root: T, s: set<T>, x: T, k: nat)
    requires root in s && Closed(edges, s) && ReachIn(edges, root, x, k)
    ensures x in s
  {
    if k > 0 {
      var y :| y in edges && ReachIn(edges, root, y, k - 1) && x in edges[y];
      ReachInClosed(edges, root, s, y, k - 1);
    }
  }

  /** A closed set that has the root has everything reachable. */
  lemma ReachableInClosed<T>(edges: map<T, seq<T>>, root: T, s: set<T>)
    requires root in s && Closed(edges, s)
    ensures forall x :: Reachable(edges, root, x) ==> x in s
  {
    forall x | Reachable(edges, root, x) ensures x in s {
      var k: nat :| ReachIn(edges, root, x, k);
      ReachInClosed(edges, root, s, x, k);
    }
  }

  /** A closed set that has the root and only reachable nodes is the reachable set. */
  lemma ReachableSet<T>(edges: map<T, seq<T>>, root: T, s: set<T>)
    requires root in s && Closed(edges, s) && forall x :: x in s ==> Reachable(edges, root, x)
    ensures forall x :: x in s <==> Reachable(edges, root, x)
  {
    ReachableInClosed(edges, root, s);
  }

  ghost function LiveNodes<T>(edges: map<T, seq<T>>, root: T): set<T>
  {
    set n | n in edges && Reachable(edges, root, n)
  }

  lemma RootLive<T>(edges: map<T, seq<T>>, root: T)
    requires root in edges
    ensures root in LiveNodes(edges, root)
  {
    RootReachable(edges, root);
  }

  lemma LiveInNodes<T>(edges: map<T, seq<T>>, root: T)
    ensures LiveNodes(edges, root) <= edges.Keys
  {
  }
}
