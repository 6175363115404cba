/**
 Breadth-first walks over a graph given by its successor function: what a walk has
 visited so far, what its queue still owes, and what it has found when the queue is
 empty. All object-graph walks of the server are instances.
 */
module GraphWalk {

  type Node = nat
  type Edges = Node -> seq<Node>

  /** `p` is a path that stays clear of `avoid`. */
  ghost predicate IsPath(next: Edges, avoid: set<Node>, p: seq<Node>) {
    && p != []
    && (forall i :: 0 <= i < |p| ==> p[i] !in avoid)
    && (forall i :: 0 < i < |p| ==> p[i] in next(p[i - 1]))
  }

  /** `x` can be reached from `roots` without touching `avoid`. */
  ghost predicate Reach(next: Edges, roots: seq<Node>, avoid: set<Node>, x: Node) {
    exists p :: IsPath(next, avoid, p) && p[0] in roots && p[|p| - 1] == x
  }

  lemma ReachRoot(next: Edges, roots: seq<Node>, avoid: set<Node>, x: Node)
    requires x in roots && x !in avoid
    ensures Reach(next, roots, avoid, x)
  {
    var p := [x];
    assert IsPath(next, avoid, p) && p[0] in roots && p[|p| - 1] == x;
  }

  lemma ReachStep(next: Edges, roots: seq<Node>, avoid: set<Node>, x: Node, y: Node)
    requires Reach(next, roots, avoid, x) && y in next(x) && y !in avoid
    ensures Reach(next, roots, avoid, y)
  {
    var p :| IsPath(next, avoid, p) && p[0] in roots && p[|p| - 1] == x;
    var q := p + [y];
    assert IsPath(next, avoid, q) && q[0] in roots && q[|q| - 1] == y;
  }

  /** A set that holds the roots and is closed under the edges holds every reached node. */
  lemma {:induction false} ClosedHoldsReach(next: Edges, roots: seq<Node>, avoid: set<Node>, s: set<Node>, x: Node)
    requires forall r :: r in roots && r !in avoid ==> r in s
    requires forall v, c :: v in s && c in next(v) && c !in avoid ==> c in s
    requires Reach(next, roots, avoid, x)
    ensures x in s
  {
    var p :| IsPath(next, avoid, p) && p[0] in roots && p[|p| - 1] == x;
    PathStaysInside(next, avoid, s, p, |p| - 1);
  }

  lemma {:induction false} PathStaysInside(next: Edges, avoid: set<Node>, s: set<Node>, p: seq<Node>, i: nat)
    requires IsPath(next, avoid, p) && i < |p| && p[0] in s
    requires forall v, c :: v in s && c in next(v) && c !in avoid ==> c in s
    ensures p[i] in s
    decreases i
  {
    if i > 0 { PathStaysInside(next, avoid, s, p, i - 1); }
  }

  function Elements(q: seq<Node>): set<Node> {
    set x | x in q
  }

  ghost predicate NoRepeats(q: seq<Node>) {
    forall i, j :: 0 <= i < j < |q| ==> q[i] != q[j]
  }

  /** A walk in progress: `visited` in order, everything owed sits in the queue. */
  ghost predicate Walking(next: Edges, roots: seq<Node>, avoid: set<Node>,
                          seen: set<Node>, visited: seq<Node>, queue: seq<Node>)
  {
    && seen == avoid + Elements(visited)
    && NoRepeats(visited)
    && (forall x :: x in visited ==> x !in avoid && Reach(next, roots, avoid, x))
    && (forall x :: x in queue && x !in avoid ==> Reach(next, roots, avoid, x))
    && (forall x :: x in roots ==> x in seen || x in queue)
    && (forall v, c :: v in visited && c in next(v) ==> c in seen || c in queue)
  }

  lemma WalkStarts(next: Edges, roots: seq<Node>, avoid: set<Node>)
    ensures Walking(next, roots, avoid, avoid, [], roots)
  {
    forall x | x in roots && x !in avoid ensures Reach(next, roots, avoid, x) { ReachRoot(next, roots, avoid, x); }
  }

  lemma WalkSkips(next: Edges, roots: seq<Node>, avoid: set<Node>, seen: set<Node>, visited: seq<Node>, queue: seq<Node>)
    requires Walking(next, roots, avoid, seen, visited, queue) && queue != [] && queue[0] in seen
    ensures Walking(next, roots, avoid, seen, visited, queue[1..])
  {
    forall x | x in queue && x !in queue[1..] ensures x in seen {}
  }

  /** Visiting the head and queueing its successors, or at least the unseen ones. */
  lemma WalkVisits(next: Edges, roots: seq<Node>, avoid: set<Node>, seen: set<Node>, visited: seq<Node>, queue: seq<Node>,
                   pushed: seq<Node>)
    requires Walking(next, roots, avoid, seen, visited, queue) && queue != [] && queue[0] !in seen
    requires forall c :: c in pushed ==> c in next(queue[0])
    requires forall c :: c in next(queue[0]) && c !in seen && c != queue[0] ==> c in pushed
    ensures Walking(next, roots, avoid, seen + {queue[0]}, visited + [queue[0]], queue[1..] + pushed)
  {
    var x := queue[0];
    assert Reach(next, roots, avoid, x);
    var seen', visited', queue' := seen + {x}, visited + [x], queue[1..] + pushed;
    assert forall y :: y in queue ==> y == x || y in queue[1..];
    forall y | y in queue' && y !in avoid ensures Reach(next, roots, avoid, y) {
      if y in pushed { ReachStep(next, roots, avoid, x, y); }
    }
    assert Elements(visited') == Elements(visited) + {x};
    forall v, c | v in visited' && c in next(v) ensures c in seen' || c in queue' {
      if v in visited { assert c in seen || c in queue; }
    }
  }

  /** With nothing owed, exactly the reachable nodes were visited. */
  lemma WalkEnds(next: Edges, roots: seq<Node>, avoid: set<Node>, seen: set<Node>, visited: seq<Node>)
    requires Walking(next, roots, avoid, seen, visited, [])
    ensures forall x :: x in visited <==> Reach(next, roots, avoid, x)
  {
    forall x | Reach(next, roots, avoid, x) ensures x in visited {
      ClosedHoldsReach(next, roots, avoid, Elements(visited), x);
    }
  }

  /** A finite set that a walk cannot leave. */
  ghost predicate Bounds(next: Edges, universe: set<Node>) {
    forall v, c :: v in universe && c in next(v) ==> c in universe
  }

  method Walk(next: Edges, roots: seq<Node>, avoid: set<Node>, ghost universe: set<Node>)
      returns (seen: set<Node>, visited: seq<Node>)
    requires Elements(roots) <= universe && Bounds(next, universe)
    ensures seen == avoid + Elements(visited) && NoRepeats(visited)
    ensures forall x :: x in visited <==> Reach(next, roots, avoid, x)
  {
    hide Reach;
    seen, visited := avoid, [];
    var queue := roots;
    WalkStarts(next, roots, avoid);
    while queue != []
      invariant Walking(next, roots, avoid, seen, visited, queue) && Elements(queue) <= universe
      decreases universe - seen, |queue|
    {
      var x := queue[0];
      if x in seen {
        WalkSkips(next, roots, avoid, seen, visited, queue);
        queue := queue[1..];
      } else {
        WalkVisits(next, roots, avoid, seen, visited, queue, next(x));
        seen, visited, queue := seen + {x}, visited + [x], queue[1..] + next(x);
      }
    }
    WalkEnds(next, roots, avoid, seen, visited);
  }

  // ----- closed exclusion sets ------------------------------------------------------------------

  /** When the avoided set is itself closed, avoiding it on the way changes nothing. */
  lemma {:induction false} AvoidingAClosedSet(next: Edges, roots: seq<Node>, avoid: set<Node>, x: Node)
    requires forall v, c :: v in avoid && c in next(v) ==> c in avoid
    ensures Reach(next, roots, avoid, x) <==> Reach(next, roots, {}, x) && x !in avoid
  {
    if Reach(next, roots, avoid, x) {
      var p :| IsPath(next, avoid, p) && p[0] in roots && p[|p| - 1] == x;
      assert IsPath(next, {}, p);
    }
    if Reach(next, roots, {}, x) && x !in avoid {
      var p :| IsPath(next, {}, p) && p[0] in roots && p[|p| - 1] == x;
      forall i | 0 <= i < |p| ensures p[i] !in avoid {
        if p[i] in avoid { ClosedSetIsATrap(next, avoid, p, i, |p| - 1); }
      }
      assert IsPath(next, avoid, p);
    }
  }

  lemma {:induction false} ClosedSetIsATrap(next: Edges, s: set<Node>, p: seq<Node>, i: nat, j: nat)
    requires IsPath(next, {}, p) && i <= j < |p| && p[i] in s
    requires forall v, c :: v in s && c in next(v) ==> c in s
    ensures p[j] in s
    decreases j - i
  {
    if i < j { ClosedSetIsATrap(next, s, p, i, j - 1); }
  }
}
