/**
 Directed graphs over identifiers, as the sets of pairs that the worklists of the other
 modules explore: walks, balls of a given radius, reachability and closed sets.
 */
module Graphs {
  /** Identifiers are compared, never taken apart. */
  datatype Id = Id(text: string)

  type Relation = set<(Id, Id)>

  /** The nodes at most `n` steps away from `root`. */
  ghost function Ball(r: Relation, root: Id, n: nat): set<Id> {
    if n == 0 then {root} else Ball(r, root, n - 1) + set e | e in r && e.0 in Ball(r, root, n - 1) :: e.1
  }

  ghost predicate Reaches(r: Relation, a: Id, b: Id) {
    exists n: nat :: b in Ball(r, a, n)
  }

  ghost predicate Closed(r: Relation, s: set<Id>) {
    forall e :: e in r && e.0 in s ==> e.1 in s
  }

  ghost predicate Symmetric(r: Relation) {
    forall e :: e in r ==> (e.1, e.0) in r
  }

  /** A walk visits at least one node and follows one edge from each node to the next. */
  ghost predicate IsWalk(r: Relation, p: seq<Id>) {
    |p| > 0 && forall i :: 0 <= i < |p| - 1 ==> (p[i], p[i + 1]) in r
  }

  ghost predicate IsWalkBetween(r: Relation, p: seq<Id>, a: Id, b: Id) {
    IsWalk(r, p) && p[0] == a && p[|p| - 1] == b
  }

  /** The targets of finitely many edges, with a root, form a finite set: the measure of every search. */
  lemma SearchSpace(r: Relation, root: Id) returns (all: set<Id>)
    ensures root in all && forall e :: e in r ==> e.1 in all
  {
    all := {root} + set e | e in r :: e.1;
  }

  lemma BallMonotone(r: Relation, root: Id, m: nat, n: nat)
    requires m <= n
    ensures Ball(r, root, m) <= Ball(r, root, n)
    decreases n
  {
    if m < n {
      BallMonotone(r, root, m, n - 1);
    }
  }

  lemma {:induction false} BallGrowsWithEdges(r: Relation, r': Relation, root: Id, n: nat)
    requires r <= r'
    ensures Ball(r, root, n) <= Ball(r', root, n)
  {
    if n > 0 {
      BallGrowsWithEdges(r, r', root, n - 1);
    }
  }

  /** One more edge leads one step further out. */
  lemma BallStep(r: Relation, root: Id, n: nat, x: Id, y: Id)
    requires x in Ball(r, root, n) && (x, y) in r
    ensures y in Ball(r, root, n + 1)
  {
  }

  /** A closed set that holds the root holds every ball around it. */
  lemma {:induction false} ClosedHoldsBall(r: Relation, s: set<Id>, root: Id, n: nat)
    requires Closed(r, s) && root in s
    ensures Ball(r, root, n) <= s
  {
    if n > 0 {
      ClosedHoldsBall(r, s, root, n - 1);
    }
  }

  lemma ClosedHoldsReachable(r: Relation, s: set<Id>, root: Id, x: Id)
    requires Closed(r, s) && root in s && Reaches(r, root, x)
    ensures x in s
  {
    var n: nat :| x in Ball(r, root, n);
    ClosedHoldsBall(r, s, root, n);
  }

  lemma {:induction false} BallTransitive(r: Relation, a: Id, b: Id, c: Id, m: nat, n: nat)
    requires b in Ball(r, a, m) && c in Ball(r, b, n)
    ensures c in Ball(r, a, m + n)
    decreases n
  {
    if n > 0 {
      if c in Ball(r, b, n - 1) {
        BallTransitive(r, a, b, c, m, n - 1);
      } else {
        var e :| e in r && e.0 in Ball(r, b, n - 1) && e.1 == c;
        BallTransitive(r, a, b, e.0, m, n - 1);
      }
    }
  }

  lemma ReachesReflexive(r: Relation, a: Id)
    ensures Reaches(r, a, a)
  {
    assert a in Ball(r, a, 0);
  }

  lemma ReachesEdge(r: Relation, a: Id, b: Id)
    requires (a, b) in r
    ensures Reaches(r, a, b)
  {
    BallStep(r, a, 0, a, b);
  }

  lemma ReachesTransitive(r: Relation, a: Id, b: Id, c: Id)
    requires Reaches(r, a, b) && Reaches(r, b, c)
    ensures Reaches(r, a, c)
  {
    var m: nat :| b in Ball(r, a, m);
    var n: nat :| c in Ball(r, b, n);
    BallTransitive(r, a, b, c, m, n);
  }

  lemma ReachesOneMore(r: Relation, a: Id, b: Id, c: Id)
    requires Reaches(r, a, b) && (b, c) in r
    ensures Reaches(r, a, c)
  {
    ReachesEdge(r, b, c);
    ReachesTransitive(r, a, b, c);
  }

  lemma {:induction false} BallSymmetric(r: Relation, a: Id, b: Id, n: nat)
    requires Symmetric(r) && b in Ball(r, a, n)
    ensures a in Ball(r, b, n)
    decreases n
  {
    if n > 0 {
      if b in Ball(r, a, n - 1) {
        BallSymmetric(r, a, b, n - 1);
        BallMonotone(r, b, n - 1, n);
      } else {
        var e :| e in r && e.0 in Ball(r, a, n - 1) && e.1 == b;
        BallSymmetric(r, a, e.0, n - 1);
        BallStep(r, b, 0, b, e.0);
        BallTransitive(r, b, e.0, a, 1, n - 1);
      }
    }
  }

  lemma ReachesSymmetric(r: Relation, a: Id, b: Id)
    requires Symmetric(r) && Reaches(r, a, b)
    ensures Reaches(r, b, a)
  {
    var n: nat :| b in Ball(r, a, n);
    BallSymmetric(r, a, b, n);
  }

  /** A ball of radius `n` is exactly the set of ends of the walks of at most `n` edges. */
  lemma {:induction false} BallIsWalks(r: Relation, root: Id, n: nat, x: Id)
    ensures x in Ball(r, root, n) <==> exists p :: IsWalkBetween(r, p, root, x) && |p| <= n + 1
  {
    if x in Ball(r, root, n) {
      var p := WalkInBall(r, root, n, x);
    }
    forall p | IsWalkBetween(r, p, root, x) && |p| <= n + 1
      ensures x in Ball(r, root, n)
    {
      WalkEndsInBall(r, p);
      BallMonotone(r, root, |p| - 1, n);
    }
  }

  lemma {:induction false} WalkInBall(r: Relation, root: Id, n: nat, x: Id) returns (p: seq<Id>)
    requires x in Ball(r, root, n)
    ensures IsWalkBetween(r, p, root, x) && |p| <= n + 1
  {
    if n == 0 {
      p := [root];
    } else if x in Ball(r, root, n - 1) {
      p := WalkInBall(r, root, n - 1, x);
    } else {
      var e :| e in r && e.0 in Ball(r, root, n - 1) && e.1 == x;
      var q := WalkInBall(r, root, n - 1, e.0);
      p := q + [x];
    }
  }

  lemma {:induction false} WalkEndsInBall(r: Relation, p: seq<Id>)
    requires IsWalk(r, p)
    ensures p[|p| - 1] in Ball(r, p[0], |p| - 1)
  {
    if |p| > 1 {
      var q := p[..|p| - 1];
      WalkEndsInBall(r, q);
      assert (p[|p| - 2], p[|p| - 1]) in r;
      BallStep(r, p[0], |q| - 1, p[|p| - 2], p[|p| - 1]);
    }
  }

  /** `x` is reachable from one of the seeds. */
  ghost predicate ReachedFrom(r: Relation, seeds: set<Id>, x: Id) {
    exists s :: s in seeds && Reaches(r, s, x)
  }

  /** What is reachable from the seeds is a finite closed set: the goal, and the measure, of every worklist. */
  lemma ReachableSet(r: Relation, seeds: set<Id>) returns (reach: set<Id>)
    ensures forall x :: x in reach <==> ReachedFrom(r, seeds, x)
    ensures seeds <= reach && Closed(r, reach)
  {
    var all := seeds + set e | e in r :: e.1;
    reach := set x | x in all && ReachedFrom(r, seeds, x);
    forall x | ReachedFrom(r, seeds, x)
      ensures x in all
    {
      var s :| s in seeds && Reaches(r, s, x);
      ClosedHoldsReachable(r, all, s, x);
    }
    forall s | s in seeds
      ensures ReachedFrom(r, seeds, s)
    {
      ReachesReflexive(r, s);
    }
    forall e | e in r && e.0 in reach
      ensures ReachedFrom(r, seeds, e.1)
    {
      var s :| s in seeds && Reaches(r, s, e.0);
      ReachesOneMore(r, s, e.0, e.1);
    }
  }

  lemma ClosedHoldsReached(r: Relation, s: set<Id>, seeds: set<Id>)
    requires Closed(r, s) && seeds <= s
    ensures forall x :: ReachedFrom(r, seeds, x) ==> x in s
  {
    forall x | ReachedFrom(r, seeds, x)
      ensures x in s
    {
      var y :| y in seeds && Reaches(r, y, x);
      ClosedHoldsReachable(r, s, y, x);
    }
  }

  /** Two relations that agree on the links from a ball have the same ball. */
  lemma {:induction false} SameLinksSameBall(r: Relation, r': Relation, ids: set<Id>, root: Id, n: nat)
    requires forall x, y :: x in ids ==> ((x, y) in r <==> (x, y) in r')
    requires Ball(r, root, n) <= ids
    ensures Ball(r, root, n) == Ball(r', root, n)
  {
    if n > 0 {
      BallMonotone(r, root, n - 1, n);
      SameLinksSameBall(r, r', ids, root, n - 1);
      assert forall e: (Id, Id) :: e.0 in ids ==> (e in r <==> (e.0, e.1) in r');
    }
  }
}
