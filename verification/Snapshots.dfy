/**
 Packing snapshots: a shallow clone packs the whole tree of every included commit,
 each object once; a deepening fetch leaves the client with the whole tree of every
 included commit without resending what its old boundary commits already gave it.
 */
module Snapshots {
  import opened Options
  import opened GraphWalk
  import opened ObjectGraph
  import opened Shallow
  import opened ShallowDepth

  /** Where the snapshot walk of an included object begins. */
  function Seeds(repo: Repo, s: Sha): seq<Sha> {
    if !Held(repo, s) then []
    else match Get(repo, s)
      case Commit(tree, _) => Listed(tree)
      case Tree(children) => children
      case _ => []
  }

  /** The seeds of the included objects that the client does not have yet. */
  function FreshSeeds(repo: Repo, roots: seq<Sha>, have: set<Sha>): (r: seq<Sha>)
    ensures forall x :: x in r <==> exists s :: s in roots && s !in have && x in Seeds(repo, s)
  {
    if roots == [] then []
    else (if roots[0] in have then [] else Seeds(repo, roots[0])) + FreshSeeds(repo, roots[1..], have)
  }

  /** `x` belongs to the snapshot of `c`: the object itself and its whole tree. */
  ghost predicate InSnapshot(repo: Repo, c: Sha, x: Sha) {
    x == c || Reach(TreeKids(repo), Seeds(repo, c), {}, x)
  }

  ghost predicate TreeLists(repo: Repo, t: Sha, x: Sha) {
    Held(repo, t) && Get(repo, t).Tree? && x in Get(repo, t).children
  }

  ghost predicate ListedInSnapshot(repo: Repo, c: Sha, x: Sha) { exists t :: InSnapshot(repo, c, t) && TreeLists(repo, t, x) }

  /** Read off the fields: a snapshot is the object, a commit's tree, and what the trees in it list. */
  lemma SnapshotIs(repo: Repo, c: Sha, x: Sha)
    ensures InSnapshot(repo, c, x) <==>
      x == c || (IsCommit(repo, c) && Get(repo, c).tree == Some(x)) || ListedInSnapshot(repo, c, x)
  {
    if InSnapshot(repo, c, x) && x != c {
      var p :| IsPath(TreeKids(repo), {}, p) && p[0] in Seeds(repo, c) && p[|p| - 1] == x;
      if |p| == 1 {
        assert InSnapshot(repo, c, c);
      } else {
        var q := p[..|p| - 1];
        assert p[|p| - 1] in TreeKids(repo)(p[|p| - 2]);
        assert IsPath(TreeKids(repo), {}, q) && q[0] in Seeds(repo, c) && q[|q| - 1] == p[|p| - 2];
        assert InSnapshot(repo, c, p[|p| - 2]);
      }
    }
    if IsCommit(repo, c) && Get(repo, c).tree == Some(x) { ReachRoot(TreeKids(repo), Seeds(repo, c), {}, x); }
    if t :| InSnapshot(repo, c, t) && TreeLists(repo, t, x) {
      assert x in TreeKids(repo)(t);
      assert IsPath(TreeKids(repo), {}, [t, x]);
      SnapshotGoesDown(repo, c, t, [t, x]);
    }
  }

  // ----- the packing pass ----------------------------------------------------------------------

  ghost predicate PacksExactly(repo: Repo, roots: seq<Sha>, have: set<Sha>, packed: seq<Sha>) {
    && NoRepeats(packed)
    && forall x :: x in packed <==>
         Held(repo, x) && x !in have && (x in roots || Reach(TreeKids(repo), FreshSeeds(repo, roots, have), have, x))
  }

  /** Included objects are marked before the tree walk starts; that hides nothing,
      because the walk is seeded with what an included tree lists. */
  lemma {:induction false} RootsHideNothing(repo: Repo, roots: seq<Sha>, have: set<Sha>, p: seq<Sha>)
    requires IsPath(TreeKids(repo), have, p) && p[0] in FreshSeeds(repo, roots, have) && p[|p| - 1] !in roots
    ensures Reach(TreeKids(repo), FreshSeeds(repo, roots, have), have + Elements(roots), p[|p| - 1])
    decreases |p|
  {
    if i :| 0 <= i < |p| && p[i] in roots {
      var q := p[i + 1..];
      assert q[0] in TreeKids(repo)(p[i]) && q[0] in Seeds(repo, p[i]);
      assert IsPath(TreeKids(repo), have, q) by {
        forall j | 0 < j < |q| ensures q[j] in TreeKids(repo)(q[j - 1]) { assert p[i + 1 + j] in TreeKids(repo)(p[i + j]); }
      }
      RootsHideNothing(repo, roots, have, q);
    } else {
      assert IsPath(TreeKids(repo), have + Elements(roots), p);
    }
  }

  lemma RootsHideNothingAtAll(repo: Repo, roots: seq<Sha>, have: set<Sha>, x: Sha)
    ensures Reach(TreeKids(repo), FreshSeeds(repo, roots, have), have + Elements(roots), x) <==>
      Reach(TreeKids(repo), FreshSeeds(repo, roots, have), have, x) && x !in roots
  {
    var seeds := FreshSeeds(repo, roots, have);
    if Reach(TreeKids(repo), seeds, have + Elements(roots), x) {
      var p :| IsPath(TreeKids(repo), have + Elements(roots), p) && p[0] in seeds && p[|p| - 1] == x;
      assert IsPath(TreeKids(repo), have, p);
    }
    if Reach(TreeKids(repo), seeds, have, x) && x !in roots {
      var p :| IsPath(TreeKids(repo), have, p) && p[0] in seeds && p[|p| - 1] == x;
      RootsHideNothing(repo, roots, have, p);
    }
  }

  /** First pass: the included objects themselves. */
  method PackRoots(repo: Repo, roots: seq<Sha>, have: set<Sha>) returns (seen: set<Sha>, packed: seq<Sha>, queue: seq<Sha>)
    requires NoRepeats(roots) && forall s :: s in roots ==> Held(repo, s)
    ensures seen == have + Elements(roots) && NoRepeats(packed)
    ensures forall x :: x in packed <==> x in roots && x !in have
    ensures Elements(queue) == Elements(FreshSeeds(repo, roots, have))
  {
    seen, packed, queue := have, [], [];
    for i := 0 to |roots|
      invariant seen == have + Elements(roots[..i]) && NoRepeats(packed)
      invariant forall x :: x in packed <==> x in roots[..i] && x !in have
      invariant forall x :: x in queue <==> exists s :: s in roots[..i] && s !in have && x in Seeds(repo, s)
    {
      var s := roots[i];
      assert roots[..i + 1] == roots[..i] + [s] && s !in roots[..i];
      if s !in seen {
        packed := packed + [s];
        queue := queue + Seeds(repo, s);
      }
      seen := seen + {s};
    }
    assert roots[..|roots|] == roots;
  }

  lemma SameSeeds(next: Edges, a: seq<Node>, b: seq<Node>, avoid: set<Node>, x: Node)
    requires Elements(a) == Elements(b)
    ensures Reach(next, a, avoid, x) ==> Reach(next, b, avoid, x)
  {
    if Reach(next, a, avoid, x) {
      var p :| IsPath(next, avoid, p) && p[0] in a && p[|p| - 1] == x;
      assert p[0] in Elements(a);
    }
  }

  method PackSnapshots(repo: Repo, roots: seq<Sha>, have: set<Sha>) returns (packed: seq<Sha>)
    requires NoRepeats(roots) && forall s :: s in roots ==> Held(repo, s)
    ensures PacksExactly(repo, roots, have, packed)
  {
    hide Reach;
    var seen, queue;
    seen, packed, queue := PackRoots(repo, roots, have);
    var seeds, avoid := queue, seen;
    ghost var visited, universe, first := [], Universe(repo, queue), packed;
    UniverseBounds(repo, queue);
    WalkStarts(TreeKids(repo), seeds, avoid);
    while queue != []
      invariant Walking(TreeKids(repo), seeds, avoid, seen, visited, queue) && Elements(queue) <= universe
      invariant NoRepeats(packed)
      invariant forall x :: x in packed <==> x in first || (x in visited && Held(repo, x))
      decreases universe - seen, |queue|
    {
      var s := queue[0];
      if s in seen {
        WalkSkips(TreeKids(repo), seeds, avoid, seen, visited, queue);
        queue := queue[1..];
        continue;
      }
      WalkVisits(TreeKids(repo), seeds, avoid, seen, visited, queue, TreeChildren(repo, s));
      assert s !in packed;
      visited := visited + [s];
      seen, queue := seen + {s}, queue[1..] + TreeChildren(repo, s);
      if Held(repo, s) { packed := packed + [s]; }
    }
    WalkEnds(TreeKids(repo), seeds, avoid, seen, visited);
    forall x ensures Reach(TreeKids(repo), seeds, avoid, x) <==>
      Reach(TreeKids(repo), FreshSeeds(repo, roots, have), have, x) && x !in roots
    {
      SameSeeds(TreeKids(repo), seeds, FreshSeeds(repo, roots, have), avoid, x);
      SameSeeds(TreeKids(repo), FreshSeeds(repo, roots, have), seeds, avoid, x);
      RootsHideNothingAtAll(repo, roots, have, x);
    }
    forall x | Reach(TreeKids(repo), FreshSeeds(repo, roots, have), have, x) ensures x !in have {
      ReachAvoids(TreeKids(repo), FreshSeeds(repo, roots, have), have, x);
    }
  }

  lemma ReachAvoids(next: Edges, roots: seq<Node>, avoid: set<Node>, x: Node)
    requires Reach(next, roots, avoid, x)
    ensures x !in avoid
  {}

  // ----- shallow clone -----------------------------------------------------------------------------

  method CollectShallow(repo: Repo, wants: seq<Sha>, exclude: set<Sha>, depth: nat)
      returns (packed: seq<Sha>, shallow: seq<Sha>)
    ensures var rq := Request(repo, exclude, {}, if depth == 0 then 1 else depth);
      shallow == Walked(rq, wants).shallow && PacksExactly(repo, Walked(rq, wants).roots, exclude, packed)
  {
    hide PacksExactly, Walked;
    var rq := Request(repo, exclude, {}, if depth == 0 then 1 else depth);
    var st := CommitWalk(rq, wants);
    NothingCutSilently(rq, wants, 0);
    packed := PackSnapshots(repo, st.roots, exclude);
    shallow := st.shallow;
  }

  /** A fresh clone packs exactly the held objects of the included snapshots. */
  lemma CloneIsItsSnapshots(repo: Repo, roots: seq<Sha>, packed: seq<Sha>, x: Sha)
    requires PacksExactly(repo, roots, {}, packed)
    ensures x in packed <==> Held(repo, x) && exists c :: c in roots && InSnapshot(repo, c, x)
  {
    var seeds := FreshSeeds(repo, roots, {});
    if Reach(TreeKids(repo), seeds, {}, x) {
      var p :| IsPath(TreeKids(repo), {}, p) && p[0] in seeds && p[|p| - 1] == x;
      var c :| c in roots && p[0] in Seeds(repo, c);
      assert Reach(TreeKids(repo), Seeds(repo, c), {}, x);
      assert InSnapshot(repo, c, x);
    }
    if x in roots { assert InSnapshot(repo, x, x); }
    if c :| c in roots && InSnapshot(repo, c, x) && x != c {
      var p :| IsPath(TreeKids(repo), {}, p) && p[0] in Seeds(repo, c) && p[|p| - 1] == x;
      assert p[0] in seeds;
      assert Reach(TreeKids(repo), seeds, {}, x);
    }
  }

  // ----- deepening ------------------------------------------------------------------------------------

  /** What a client holds for an old boundary commit: the commit and its tree. */
  ghost predicate BoundaryHolds(repo: Repo, b: Sha, x: Sha) {
    x == b || (IsCommit(repo, b) && Reach(TreeKids(repo), Listed(Get(repo, b).tree), {}, x))
  }

  method BoundaryHeldSet(repo: Repo, b: Sha) returns (held: set<Sha>)
    ensures forall x :: x in held <==> BoundaryHolds(repo, b, x)
  {
    hide Reach;
    held := {b};
    if IsCommit(repo, b) {
      var tree := Listed(Get(repo, b).tree);
      UniverseBounds(repo, tree);
      var visited;
      held, visited := Walk(TreeKids(repo), tree, {b}, Universe(repo, tree));
      forall x ensures Reach(TreeKids(repo), tree, {b}, x) <==> Reach(TreeKids(repo), tree, {}, x) && x != b {
        AvoidingAClosedSet(TreeKids(repo), tree, {b}, x);
      }
    }
  }

  ghost predicate SomeBoundaryHolds(repo: Repo, boundaries: set<Sha>, x: Sha) {
    exists b :: b in boundaries && BoundaryHolds(repo, b, x)
  }

  method AllHeld(repo: Repo, boundaries: set<Sha>) returns (have: set<Sha>)
    ensures forall x :: x in have <==> SomeBoundaryHolds(repo, boundaries, x)
  {
    hide BoundaryHolds;
    have := {};
    var left := boundaries;
    while left != {}
      invariant left <= boundaries
      invariant forall x :: x in have <==> SomeBoundaryHolds(repo, boundaries - left, x)
      decreases left
    {
      var b :| b in left;
      var held := BoundaryHeldSet(repo, b);
      assert forall x :: SomeBoundaryHolds(repo, boundaries - (left - {b}), x) <==>
        SomeBoundaryHolds(repo, boundaries - left, x) || BoundaryHolds(repo, b, x);
      have, left := have + held, left - {b};
    }
    assert boundaries - {} == boundaries;
  }

  method CollectDeepen(repo: Repo, wants: seq<Sha>, boundaries: set<Sha>, depth: nat)
      returns (packed: seq<Sha>, shallow: seq<Sha>, unshallow: seq<Sha>, ghost have: set<Sha>)
    ensures forall x :: x in have <==> SomeBoundaryHolds(repo, boundaries, x)
    ensures var rq := Request(repo, {}, boundaries, if depth == 0 then 1 else depth);
      && shallow == Walked(rq, wants).shallow && unshallow == Walked(rq, wants).unshallow
      && PacksExactly(repo, Walked(rq, wants).roots, have, packed)
  {
    hide PacksExactly, Walked, SomeBoundaryHolds;
    var rq := Request(repo, {}, boundaries, if depth == 0 then 1 else depth);
    var st := CommitWalk(rq, wants);
    NothingCutSilently(rq, wants, 0);
    var start := AllHeld(repo, boundaries);
    have := start;
    packed := PackSnapshots(repo, st.roots, start);
    shallow, unshallow := st.shallow, st.unshallow;
  }

  /** No included commit hides inside a boundary's tree: trees name held commits of
      this repository only if those are boundaries themselves. */
  ghost predicate NoBuriedCommit(repo: Repo, boundaries: set<Sha>, roots: seq<Sha>) {
    forall c :: c in roots && c !in boundaries ==> !SomeBoundaryHolds(repo, boundaries, c)
  }

  lemma HeldIsClosed(repo: Repo, boundaries: set<Sha>, have: set<Sha>)
    requires forall b :: b in boundaries && Held(repo, b) ==> IsCommit(repo, b)
    requires forall x :: x in have <==> SomeBoundaryHolds(repo, boundaries, x)
    ensures forall v, c :: v in have && c in TreeKids(repo)(v) ==> c in have
  {
    hide Reach;
    forall v, c | v in have && c in TreeKids(repo)(v) ensures c in have {
      var b :| b in boundaries && BoundaryHolds(repo, b, v);
      if v != b { ReachStep(TreeKids(repo), Listed(Get(repo, b).tree), {}, v, c); }
      assert BoundaryHolds(repo, b, c);
    }
  }

  /** After deepening the client lacks nothing of any included snapshot. */
  ghost predicate Completes(repo: Repo, roots: seq<Sha>, have: set<Sha>, packed: seq<Sha>) {
    forall c, x :: c in roots && IsCommit(repo, c) && InSnapshot(repo, c, x) && Held(repo, x) ==> x in have || x in packed
  }

  /** The tree of every included commit that counts as held already is with the client, or is
      part of the snapshot of an included object that does not count as held. */
  ghost predicate TreesCovered(repo: Repo, roots: seq<Sha>, have: set<Sha>) {
    forall c, t :: c in roots && IsCommit(repo, c) && c in have && t in Seeds(repo, c) && Held(repo, t) ==>
      t in have || FreshlySent(repo, roots, have, t)
  }

  ghost predicate FreshlySent(repo: Repo, roots: seq<Sha>, have: set<Sha>, t: Sha) {
    exists c :: c in roots && c !in have && InSnapshot(repo, c, t)
  }

  /** The snapshot of an included object that is not held is held or packed to the last object. */
  lemma FreshIsComplete(repo: Repo, boundaries: set<Sha>, roots: seq<Sha>, have: set<Sha>, packed: seq<Sha>, c: Sha, x: Sha)
    requires forall b :: b in boundaries && Held(repo, b) ==> IsCommit(repo, b)
    requires forall y :: y in have <==> SomeBoundaryHolds(repo, boundaries, y)
    requires PacksExactly(repo, roots, have, packed) && c in roots && c !in have && InSnapshot(repo, c, x) && Held(repo, x)
    ensures x in have || x in packed
  {
    if x != c {
      var p :| IsPath(TreeKids(repo), {}, p) && p[0] in Seeds(repo, c) && p[|p| - 1] == x;
      assert p[0] in FreshSeeds(repo, roots, have);
      assert Reach(TreeKids(repo), FreshSeeds(repo, roots, have), {}, x);
      HeldIsClosed(repo, boundaries, have);
      AvoidingAClosedSet(TreeKids(repo), FreshSeeds(repo, roots, have), have, x);
    }
  }

  /** Whatever is packed belongs to the snapshot of an included object that was not held. */
  lemma PackedIsFresh(repo: Repo, roots: seq<Sha>, have: set<Sha>, packed: seq<Sha>, t: Sha)
    requires PacksExactly(repo, roots, have, packed) && t in packed
    ensures FreshlySent(repo, roots, have, t)
  {
    if t in roots {
      assert InSnapshot(repo, t, t);
    } else {
      var p :| IsPath(TreeKids(repo), have, p) && p[0] in FreshSeeds(repo, roots, have) && p[|p| - 1] == t;
      var c :| c in roots && c !in have && p[0] in Seeds(repo, c);
      assert IsPath(TreeKids(repo), {}, p);
      assert InSnapshot(repo, c, t);
    }
  }

  /** Inside a snapshot, everything below a member is a member. */
  lemma SnapshotGoesDown(repo: Repo, c: Sha, t: Sha, p: seq<Sha>)
    requires InSnapshot(repo, c, t) && IsPath(TreeKids(repo), {}, p) && p[0] == t
    ensures InSnapshot(repo, c, p[|p| - 1])
  {
    if t == c {
      if |p| > 1 {
        var q := p[1..];
        assert q[0] in TreeKids(repo)(p[0]) && q[0] in Seeds(repo, c);
        PathTail(TreeKids(repo), p);
      }
    } else {
      hide Seeds, TreeKids;
      var r :| IsPath(TreeKids(repo), {}, r) && r[0] in Seeds(repo, c) && r[|r| - 1] == t;
      PathsJoin(TreeKids(repo), r, p);
    }
  }

  lemma PathTail(next: Edges, p: seq<Node>)
    requires IsPath(next, {}, p) && |p| > 1
    ensures IsPath(next, {}, p[1..])
  {
    var q := p[1..];
    forall i | 0 < i < |q| ensures q[i] in next(q[i - 1]) { assert p[i + 1] in next(p[i]); }
  }

  lemma PathsJoin(next: Edges, r: seq<Node>, p: seq<Node>)
    requires IsPath(next, {}, r) && IsPath(next, {}, p) && r[|r| - 1] == p[0]
    ensures var q := r + p[1..]; IsPath(next, {}, q) && q[0] == r[0] && q[|q| - 1] == p[|p| - 1]
  {
    var q := r + p[1..];
    forall i | 0 < i < |q| ensures q[i] in next(q[i - 1]) {
      if i >= |r| {
        assert p[i - |r| + 1] in next(p[i - |r|]);
        assert q[i - 1] == p[i - |r|];
      } else {
        assert r[i] in next(r[i - 1]);
      }
    }
  }

  lemma CoveredCompletes(repo: Repo, boundaries: set<Sha>, roots: seq<Sha>, have: set<Sha>, packed: seq<Sha>, c: Sha, x: Sha)
    requires forall b :: b in boundaries && Held(repo, b) ==> IsCommit(repo, b)
    requires forall y :: y in have <==> SomeBoundaryHolds(repo, boundaries, y)
    requires PacksExactly(repo, roots, have, packed) && TreesCovered(repo, roots, have)
    requires c in roots && IsCommit(repo, c) && InSnapshot(repo, c, x) && Held(repo, x)
    ensures x in have || x in packed
  {
    hide PacksExactly, SomeBoundaryHolds, TreesCovered;
    if c !in have {
      FreshIsComplete(repo, boundaries, roots, have, packed, c, x);
    } else if x != c {
      var p := SeedPath(repo, c, x);
      CoveredSeed(repo, roots, have, c, p[0]);
      if p[0] in have {
        HeldIsClosed(repo, boundaries, have);
        PathStaysInside(TreeKids(repo), {}, have, p, |p| - 1);
      } else {
        var c' :| c' in roots && c' !in have && InSnapshot(repo, c', p[0]);
        SnapshotGoesDown(repo, c', p[0], p);
        FreshIsComplete(repo, boundaries, roots, have, packed, c', x);
      }
    }
  }

  lemma SeedPath(repo: Repo, c: Sha, x: Sha) returns (p: seq<Sha>)
    requires InSnapshot(repo, c, x) && x != c && Held(repo, x)
    ensures IsPath(TreeKids(repo), {}, p) && p[0] in Seeds(repo, c) && p[|p| - 1] == x && Held(repo, p[0])
  {
    p :| IsPath(TreeKids(repo), {}, p) && p[0] in Seeds(repo, c) && p[|p| - 1] == x;
    if |p| > 1 { assert p[1] in TreeKids(repo)(p[0]); }
  }

  lemma CoveredSeed(repo: Repo, roots: seq<Sha>, have: set<Sha>, c: Sha, t: Sha)
    requires TreesCovered(repo, roots, have)
    requires c in roots && IsCommit(repo, c) && c in have && t in Seeds(repo, c) && Held(repo, t)
    ensures t in have || FreshlySent(repo, roots, have, t)
  {}

  /** Deepening completes every included snapshot exactly if the trees of the included commits
      that count as held are covered. */
  lemma DeepenCompletesIff(repo: Repo, boundaries: set<Sha>, roots: seq<Sha>, have: set<Sha>, packed: seq<Sha>)
    requires forall b :: b in boundaries && Held(repo, b) ==> IsCommit(repo, b)
    requires forall y :: y in have <==> SomeBoundaryHolds(repo, boundaries, y)
    requires PacksExactly(repo, roots, have, packed)
    ensures Completes(repo, roots, have, packed) <==> TreesCovered(repo, roots, have)
  {
    hide PacksExactly, SomeBoundaryHolds, Reach;
    if TreesCovered(repo, roots, have) {
      forall c, x | c in roots && IsCommit(repo, c) && InSnapshot(repo, c, x) && Held(repo, x) ensures x in have || x in packed {
        CoveredCompletes(repo, boundaries, roots, have, packed, c, x);
      }
    }
    if Completes(repo, roots, have, packed) {
      forall c, t | c in roots && IsCommit(repo, c) && c in have && t in Seeds(repo, c) && Held(repo, t)
        ensures t in have || FreshlySent(repo, roots, have, t)
      {
        ReachRoot(TreeKids(repo), Seeds(repo, c), {}, t);
        assert InSnapshot(repo, c, t);
        if t !in have { PackedIsFresh(repo, roots, have, packed, t); }
      }
    }
  }

  /** In particular, a client that held every old boundary's snapshot now holds, for each included
      commit, every object of its snapshot, if no included commit is buried. */
  lemma DeepenCompletesSnapshots(repo: Repo, boundaries: set<Sha>, roots: seq<Sha>, have: set<Sha>, packed: seq<Sha>)
    requires forall b :: b in boundaries && Held(repo, b) ==> IsCommit(repo, b)
    requires forall y :: y in have <==> SomeBoundaryHolds(repo, boundaries, y)
    requires PacksExactly(repo, roots, have, packed) && NoBuriedCommit(repo, boundaries, roots)
    ensures Completes(repo, roots, have, packed)
  {
    hide Completes, PacksExactly, Reach;
    forall c, t | c in roots && IsCommit(repo, c) && c in have && t in Seeds(repo, c) && Held(repo, t) ensures t in have {
      ReachRoot(TreeKids(repo), Listed(Get(repo, c).tree), {}, t);
      assert BoundaryHolds(repo, c, t);
    }
    DeepenCompletesIff(repo, boundaries, roots, have, packed);
  }

  // ----- a commit buried in a boundary's tree -----------------------------------------------------------

  /** Commit 1 has parent 3; boundary commit 2 has a tree 6 that names commit 3. */
  const BURIED := Repo(
    map[1 := 1, 2 := 2, 3 := 3, 5 := 5, 6 := 6, 7 := 7],
    map[1 := Commit(Some(5), [3]), 2 := Commit(Some(6), []), 3 := Commit(Some(7), []),
        5 := Tree([]), 6 := Tree([3]), 7 := Tree([])])

  lemma BuriedHave(x: Sha)
    ensures SomeBoundaryHolds(BURIED, {2}, x) ==> x in {2, 3, 6}
    ensures SomeBoundaryHolds(BURIED, {2}, 3)
  {
    assert Seeds(BURIED, 2) == [6] && TreeKids(BURIED)(6) == [3] && TreeKids(BURIED)(3) == [];
    hide Reach, Seeds, TreeKids, TreeChildren;
    if SomeBoundaryHolds(BURIED, {2}, x) && x != 2 {
      assert Reach(TreeKids(BURIED), [6], {}, x);
      ClosedHoldsReach(TreeKids(BURIED), [6], {}, {3, 6}, x);
    }
    ReachRoot(TreeKids(BURIED), [6], {}, 6);
    ReachStep(TreeKids(BURIED), [6], {}, 6, 3);
    assert BoundaryHolds(BURIED, 2, 3);
  }

  /** Deepening from boundary 2 with want 1, two commits deep: commits 1 and 3 are included,
      commit 3 counts as held because a boundary's tree names it, and so its own tree 7 is
      neither sent nor with the client. */
  lemma BuriedCommitLosesItsTree(have: set<Sha>, packed: seq<Sha>)
    requires forall y :: y in have <==> SomeBoundaryHolds(BURIED, {2}, y)
    requires PacksExactly(BURIED, Walked(Request(BURIED, {}, {2}, 2), [1]).roots, have, packed)
    ensures 3 in Walked(Request(BURIED, {}, {2}, 2), [1]).roots && IsCommit(BURIED, 3)
    ensures InSnapshot(BURIED, 3, 7) && Held(BURIED, 7) && 7 !in have && 7 !in packed
  {
    hide Reach, FreshSeeds, SomeBoundaryHolds, Walked;
    var roots := Walked(Request(BURIED, {}, {2}, 2), [1]).roots;
    BuriedIsIncluded();
    BuriedHave(3);
    BuriedHave(7);
    assert 3 in Elements(roots) && 7 !in Elements(roots);
    ReachRoot(TreeKids(BURIED), Seeds(BURIED, 3), {}, 7);
    OnlyFreshSeed(roots, have);
  }

  lemma OnlyFreshSeed(roots: seq<Sha>, have: set<Sha>)
    requires Elements(roots) == {1, 3} && 3 in have
    ensures !Reach(TreeKids(BURIED), FreshSeeds(BURIED, roots, have), have, 7)
  {
    assert Seeds(BURIED, 1) == [5] && TreeKids(BURIED)(5) == [];
    hide Reach, Seeds, TreeKids, TreeChildren;
    var seeds := FreshSeeds(BURIED, roots, have);
    forall r | r in seeds ensures r == 5 {
      var s :| s in roots && s !in have && r in Seeds(BURIED, s);
      assert s in Elements(roots);
    }
    hide FreshSeeds;
    if Reach(TreeKids(BURIED), seeds, have, 7) {
      ClosedHoldsReach(TreeKids(BURIED), seeds, have, {5}, 7);
    }
  }

  /** The walk that produces those roots: commit 1, two commits deep. */
  lemma BuriedIsIncluded()
    ensures Elements(Walked(Request(BURIED, {}, {2}, 2), [1]).roots) == {1, 3}
  {
    var rq := Request(BURIED, {}, {2}, 2);
    hide Walked, Ball, TagFree, LiveParents;
    BuriedIsTagFree();
    DepthIsExact(rq, [1]);
    BuriedBall();
  }

  lemma BuriedIsTagFree()
    ensures TagFree(Request(BURIED, {}, {2}, 2), [1])
  {
    forall s, p | p in LiveParents(Request(BURIED, {}, {2}, 2), s) ensures !IsTag(BURIED, p) {}
  }

  lemma BuriedBall()
    ensures Ball(Request(BURIED, {}, {2}, 2), [1], 2) == {1, 3}
  {
    hide LiveParents, Ball, ParentsOf, Wanted;
    var rq := Request(BURIED, {}, {2}, 2);
    LiveOnly(rq, 1, [3]);
    BallUnfolds(rq, [1], 1);
    BallUnfolds(rq, [1], 2);
    assert Ball(rq, [1], 0) == {} by { EmptyBall(rq, [1]); }
    assert Wanted(rq, [1]) == {1};
  }
}
