/**
 Shortest distances in a graph, and what a breadth-first search must leave behind to have found them all.
 */
module Distances {
  import opened Graphs

  /** `d` is the length of a shortest walk from `root` to `x`. */
  ghost predicate IsDistance(r: Relation, root: Id, x: Id, d: nat) {
    x in Ball(r, root, d) && (d > 0 ==> x !in Ball(r, root, d - 1))
  }

  /** Every node but the root was discovered from a node one step nearer. */
  ghost predicate DiscoveredFrom(r: Relation, distances: map<Id, nat>, root: Id, parent: map<Id, Id>) {
    root in distances && distances[root] == 0
    && distances.Keys <= parent.Keys + {root}
    && forall x {:trigger parent[x]} :: x in distances && x != root ==>
         x in parent && (parent[x], x) in r && parent[x] in distances && distances[x] == distances[parent[x]] + 1
  }

  ghost predicate Settled(r: Relation, distances: map<Id, nat>, depth: nat) {
    forall e :: e in r && e.0 in distances && distances[e.0] < depth ==>
      e.1 in distances && distances[e.1] <= distances[e.0] + 1
  }

  lemma {:induction false} SettledCoversBall(r: Relation, distances: map<Id, nat>, root: Id, depth: nat, n: nat)
    requires root in distances && distances[root] == 0 && n <= depth
    requires Settled(r, distances, depth)
    ensures forall x :: x in Ball(r, root, n) ==> x in distances && distances[x] <= n
  {
    if n > 0 {
      SettledCoversBall(r, distances, root, depth, n - 1);
    }
  }

  lemma {:induction false} DiscoveredInBall(r: Relation, distances: map<Id, nat>, root: Id, parent: map<Id, Id>, x: Id)
    requires DiscoveredFrom(r, distances, root, parent) && x in distances
    ensures x in Ball(r, root, distances[x])
    decreases distances[x]
  {
    if x != root {
      DiscoveredInBall(r, distances, root, parent, parent[x]);
      BallStep(r, root, distances[parent[x]], parent[x], x);
    }
  }

  lemma SearchIsExact(r: Relation, distances: map<Id, nat>, root: Id, parent: map<Id, Id>, depth: nat)
    requires DiscoveredFrom(r, distances, root, parent) && Settled(r, distances, depth)
    requires forall x :: x in distances ==> distances[x] <= depth
    ensures distances.Keys == Ball(r, root, depth)
    ensures forall x :: x in distances ==> IsDistance(r, root, x, distances[x])
  {
    SettledCoversBall(r, distances, root, depth, depth);
    forall x | x in distances
      ensures IsDistance(r, root, x, distances[x]) && x in Ball(r, root, depth)
    {
      DiscoveredInBall(r, distances, root, parent, x);
      BallMonotone(r, root, distances[x], depth);
      if distances[x] > 0 {
        SettledCoversBall(r, distances, root, depth, distances[x] - 1);
      }
    }
  }

  lemma DistanceIsUnique(r: Relation, root: Id, x: Id, d: nat, d': nat)
    requires IsDistance(r, root, x, d) && IsDistance(r, root, x, d')
    ensures d == d'
  {
    if d' < d {
      BallMonotone(r, root, d', d - 1);
    } else if d < d' {
      BallMonotone(r, root, d, d' - 1);
    }
  }

  lemma DistanceWithin(r: Relation, root: Id, x: Id, d: nat, depth: nat)
    requires IsDistance(r, root, x, d) && d <= depth
    ensures x in Ball(r, root, depth)
  {
    BallMonotone(r, root, d, depth);
  }

  lemma NearerNeighbour(r: Relation, root: Id, x: Id, d: nat) returns (y: Id)
    requires d > 0 && IsDistance(r, root, x, d)
    ensures (y, x) in r && IsDistance(r, root, y, d - 1)
  {
    var e :| e in r && e.0 in Ball(r, root, d - 1) && e.1 == x;
    y := e.0;
  }
}
