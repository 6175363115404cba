/**
 Depth with annotated tags: a tag is as deep as the object it names. For every request
 the walk includes nothing beyond the depth asked for; it includes everything within it
 for depth one and for requests without tags, and not in general.
 */
module ShallowTags {
  import opened Options
  import opened GraphWalk
  import opened ObjectGraph
  import opened Shallow
  import opened ShallowDepth

  function TagTargets(repo: Repo, s: Sha): seq<Sha> {
    if IsTag(repo, s) then Listed(Get(repo, s).target) else []
  }

  /** A way from a want to an object through parents and tags, clear of what is excluded. */
  ghost predicate IsRoute(rq: Request, wants: seq<Sha>, p: seq<Sha>) {
    && p != [] && p[0] in wants
    && (forall i :: 0 <= i < |p| ==> p[i] !in rq.exclude)
    && (forall i :: 0 < i < |p| ==> p[i] in LiveParents(rq, p[i - 1]) || p[i] in TagTargets(rq.repo, p[i - 1]))
  }

  /** Commits are counted; following a tag costs nothing. */
  ghost function Cost(rq: Request, p: seq<Sha>): nat
    requires p != []
  {
    if |p| == 1 then 1 else Cost(rq, p[..|p| - 1]) + if IsTag(rq.repo, p[|p| - 2]) then 0 else 1
  }

  /** `x` is at most `k` commits deep. */
  ghost predicate Near(rq: Request, wants: seq<Sha>, x: Sha, k: nat) {
    exists p :: IsRoute(rq, wants, p) && p[|p| - 1] == x && Cost(rq, p) <= k
  }

  lemma NearWant(rq: Request, wants: seq<Sha>, x: Sha, k: nat)
    requires x in wants && x !in rq.exclude && k > 0
    ensures Near(rq, wants, x, k)
  {
    assert IsRoute(rq, wants, [x]) && Cost(rq, [x]) == 1 && [x][|[x]| - 1] == x;
  }

  lemma NearStep(rq: Request, wants: seq<Sha>, x: Sha, k: nat, y: Sha, d: nat)
    requires Near(rq, wants, x, k) && y !in rq.exclude
    requires (y in LiveParents(rq, x) && d == k + 1) || (y in TagTargets(rq.repo, x) && d == k)
    ensures Near(rq, wants, y, d)
  {
    hide Cost;
    assert IsTag(rq.repo, x) <==> d == k by { NoParentsOfTags(rq, x); }
    hide LiveParents, TagTargets;
    var p :| IsRoute(rq, wants, p) && p[|p| - 1] == x && Cost(rq, p) <= k;
    RouteGoesOn(rq, wants, p, y);
    assert (p + [y])[|p + [y]| - 1] == y;
  }

  lemma RouteGoesOn(rq: Request, wants: seq<Sha>, p: seq<Sha>, y: Sha)
    requires IsRoute(rq, wants, p) && y !in rq.exclude
    requires y in LiveParents(rq, p[|p| - 1]) || y in TagTargets(rq.repo, p[|p| - 1])
    ensures IsRoute(rq, wants, p + [y])
    ensures Cost(rq, p + [y]) == Cost(rq, p) + if IsTag(rq.repo, p[|p| - 1]) then 0 else 1
  {
    hide LiveParents, TagTargets, IsTag;
    assert (p + [y])[..|p + [y]| - 1] == p;
  }

  // ----- every request: nothing too deep ----------------------------------------------------------

  /** Whatever is queued at a level is no deeper than that. */
  ghost predicate Timely(rq: Request, wants: seq<Sha>, st: Scan) {
    && (forall e :: e in st.queue ==> 0 < e.1 <= rq.depth && (e.0 in rq.exclude || Near(rq, wants, e.0, e.1)))
    && (forall x :: x in st.roots || x in st.shallow ==> Near(rq, wants, x, rq.depth))
    && (forall x :: x in st.unshallow ==> rq.depth > 1 && Near(rq, wants, x, rq.depth - 1))
  }

  lemma {:induction false} NearMonotone(rq: Request, wants: seq<Sha>, x: Sha, j: nat, k: nat)
    requires Near(rq, wants, x, j) && j <= k
    ensures Near(rq, wants, x, k)
  {}

  lemma PushedInTime(rq: Request, wants: seq<Sha>, s: Sha, d: nat, next: seq<Sha>, d': nat)
    requires Near(rq, wants, s, d)
    requires (next == LiveParents(rq, s) && d' == d + 1) || (next == TagTargets(rq.repo, s) && d' == d)
    ensures forall e :: e in At(next, d') ==> e.1 == d' && (e.0 in rq.exclude || Near(rq, wants, e.0, e.1))
  {
    hide Near, LiveParents, TagTargets;
    forall e | e in At(next, d') && e.0 !in rq.exclude ensures Near(rq, wants, e.0, d') {
      NearStep(rq, wants, s, d, e.0, d');
    }
  }

  lemma StepStaysTimely(rq: Request, wants: seq<Sha>, st: Scan)
    requires Timely(rq, wants, st) && st.queue != []
    ensures Timely(rq, wants, Step(rq, st))
  {
    hide Near, Live;
    var (s, d) := st.queue[0];
    assert st.queue[0] in st.queue;
    if s !in rq.exclude && s !in st.seen && Held(rq.repo, s) {
      NearMonotone(rq, wants, s, d, rq.depth);
      if d < rq.depth { NearMonotone(rq, wants, s, d, rq.depth - 1); }
      PushedInTime(rq, wants, s, d, LiveParents(rq, s), d + 1);
      PushedInTime(rq, wants, s, d, TagTargets(rq.repo, s), d);
    }
  }

  lemma {:induction false} FinishStaysTimely(rq: Request, wants: seq<Sha>, st: Scan, universe: set<Sha>)
    requires Shallow.Within(st, universe) && Bounds(Kids(rq.repo), universe) && Timely(rq, wants, st)
    ensures Timely(rq, wants, Finish(rq, st, universe))
    decreases universe - st.seen, |st.queue|
  {
    hide Timely, Step, Bounds;
    if st.queue != [] {
      StepStaysTimely(rq, wants, st);
      StepStays(rq, st, universe);
      assert Step(rq, st).seen != st.seen ==> st.queue[0].0 in universe - st.seen && st.queue[0].0 !in universe - Step(rq, st).seen;
      FinishStaysTimely(rq, wants, Step(rq, st), universe);
    }
  }

  lemma StartsTimely(rq: Request, wants: seq<Sha>)
    requires rq.depth > 0
    ensures Timely(rq, wants, Start(wants))
  {
    forall e | e in At(wants, 1) && e.0 !in rq.exclude ensures Near(rq, wants, e.0, e.1) { NearWant(rq, wants, e.0, 1); }
  }

  /** With tags or without, nothing deeper than the depth asked for is included or reported,
      and what is unshallowed is less deep. */
  lemma NothingTooDeep(rq: Request, wants: seq<Sha>, x: Sha)
    requires rq.depth > 0
    ensures var st := Walked(rq, wants);
      && (x in st.roots || x in st.shallow ==> Near(rq, wants, x, rq.depth))
      && (x in st.unshallow ==> Near(rq, wants, x, rq.depth - 1))
  {
    hide Near, Universe, Bounds, Finish;
    StartStays(rq.repo, wants);
    StartsTimely(rq, wants);
    FinishStaysTimely(rq, wants, Start(wants), Universe(rq.repo, wants));
  }

  // ----- exact requests ------------------------------------------------------------------------------

  /** The walk includes precisely the held objects within the depth, reports precisely the
      commits at the limit with a sendable parent, and unshallows precisely the old boundary
      commits that lie less deep. */
  ghost predicate IsExact(rq: Request, wants: seq<Sha>) {
    var st := Walked(rq, wants);
    && (forall x :: x in st.roots <==> Near(rq, wants, x, rq.depth) && Held(rq.repo, x))
    && (forall x :: x in st.shallow <==>
          Near(rq, wants, x, rq.depth) && !(rq.depth > 1 && Near(rq, wants, x, rq.depth - 1)) && LiveParents(rq, x) != [])
    && (forall x :: x in st.unshallow <==>
          rq.depth > 1 && Near(rq, wants, x, rq.depth - 1) && x in rq.boundaries && IsCommit(rq.repo, x))
  }

  lemma {:induction false} BallIsNear(rq: Request, wants: seq<Sha>, x: Sha, k: nat)
    requires x in Ball(rq, wants, k)
    ensures Near(rq, wants, x, k)
    decreases k
  {
    hide Near, LiveParents, Wanted, ParentsOf;
    BallAvoids(rq, wants, k, x);
    if x in Wanted(rq, wants) {
      NearWant(rq, wants, x, k);
    } else if x in Ball(rq, wants, k - 1) {
      BallIsNear(rq, wants, x, k - 1);
      NearMonotone(rq, wants, x, k - 1, k);
    } else {
      var s :| s in Ball(rq, wants, k - 1) && x in LiveParents(rq, s);
      BallIsNear(rq, wants, s, k - 1);
      NearStep(rq, wants, s, k - 1, x, k);
    }
  }

  lemma {:induction false} TagFreeRoute(rq: Request, wants: seq<Sha>, p: seq<Sha>, k: nat)
    requires TagFree(rq, wants) && IsRoute(rq, wants, p) && Cost(rq, p) <= k
    ensures !IsTag(rq.repo, p[|p| - 1]) && p[|p| - 1] in Ball(rq, wants, k)
    decreases |p|
  {
    hide LiveParents, Wanted, ParentsOf, Ball;
    var x := p[|p| - 1];
    if |p| == 1 {
      BallUnfolds(rq, wants, k);
    } else {
      var q := p[..|p| - 1];
      assert q[|q| - 1] == p[|p| - 2];
      TagFreeRoute(rq, wants, q, Cost(rq, q));
      BallGrows(rq, wants, Cost(rq, q), k - 1);
      assert x in LiveParents(rq, q[|q| - 1]);
      BallUnfolds(rq, wants, k);
    }
  }

  lemma NearIsBall(rq: Request, wants: seq<Sha>, x: Sha, k: nat)
    requires TagFree(rq, wants)
    ensures Near(rq, wants, x, k) <==> x in Ball(rq, wants, k)
  {
    hide TagFree, Ball, Cost;
    if Near(rq, wants, x, k) {
      var p :| IsRoute(rq, wants, p) && p[|p| - 1] == x && Cost(rq, p) <= k;
      TagFreeRoute(rq, wants, p, k);
    }
    if x in Ball(rq, wants, k) { BallIsNear(rq, wants, x, k); }
  }

  lemma TagFreeIsExact(rq: Request, wants: seq<Sha>)
    requires TagFree(rq, wants) && rq.depth > 0
    ensures IsExact(rq, wants)
  {
    hide TagFree, Near, Ball, Walked, LiveParents;
    DepthIsExact(rq, wants);
    forall x ensures Near(rq, wants, x, rq.depth) <==> x in Ball(rq, wants, rq.depth) { NearIsBall(rq, wants, x, rq.depth); }
    var above: nat := rq.depth - 1;
    forall x ensures Near(rq, wants, x, above) <==> x in Ball(rq, wants, above) { NearIsBall(rq, wants, x, above); }
    if rq.depth == 1 { assert Ball(rq, wants, 0) == {} by { EmptyBall(rq, wants); } }
  }

  /** At depth one: every want and every target of a tag met so far is met or waiting. */
  ghost predicate Peeling(rq: Request, wants: seq<Sha>, st: Scan) {
    && (forall x :: x in wants && x !in rq.exclude ==> x in st.seen || (x, 1) in st.queue)
    && (forall s, x :: s in st.seen && x in TagTargets(rq.repo, s) && x !in rq.exclude ==> x in st.seen || (x, 1) in st.queue)
    && (forall e :: e in st.queue ==> e.1 == 1)
    && (forall x :: x in st.roots <==> x in st.seen && Held(rq.repo, x))
    && (forall x :: x in st.shallow <==> x in st.seen && LiveParents(rq, x) != [])
    && st.unshallow == []
  }

  lemma PeelingSkips(rq: Request, wants: seq<Sha>, st: Scan)
    requires Peeling(rq, wants, st) && st.queue != [] && (st.queue[0].0 in st.seen || st.queue[0].0 in rq.exclude)
    ensures Peeling(rq, wants, st.(queue := st.queue[1..]))
  {
    hide TagTargets, LiveParents;
    forall e | e in st.queue && e.0 !in st.seen && e.0 !in rq.exclude ensures e in st.queue[1..] {}
  }

  lemma StepStaysPeeling(rq: Request, wants: seq<Sha>, st: Scan)
    requires rq.depth == 1 && Peeling(rq, wants, st) && st.queue != []
    ensures Peeling(rq, wants, Step(rq, st))
  {
    var s := st.queue[0].0;
    assert st.queue[0] in st.queue;
    if s in rq.exclude || s in st.seen {
      hide Visit;
      PeelingSkips(rq, wants, st);
    } else {
      PeelingVisit(rq, st);
      hide LiveParents, TagTargets, Step;
      AtHolds(TagTargets(rq.repo, s), 1);
      forall e | e in st.queue && e.0 != s ensures e in Step(rq, st).queue { assert e in st.queue[1..]; }
    }
  }

  /** At depth one an object is taken, and a tag's target queued. */
  lemma PeelingVisit(rq: Request, st: Scan)
    requires rq.depth == 1 && st.queue != [] && st.queue[0].1 == 1
    requires st.queue[0].0 !in st.seen && st.queue[0].0 !in rq.exclude
    ensures var s := st.queue[0].0;
      Step(rq, st) == Scan(st.seen + {s}, st.roots + (if Held(rq.repo, s) then [s] else []),
        st.shallow + (if LiveParents(rq, s) != [] then [s] else []), st.unshallow, st.queue[1..] + At(TagTargets(rq.repo, s), 1))
  {
    hide Live;
  }

  lemma {:induction false} FinishStaysPeeling(rq: Request, wants: seq<Sha>, st: Scan, universe: set<Sha>)
    requires Shallow.Within(st, universe) && Bounds(Kids(rq.repo), universe) && rq.depth == 1 && Peeling(rq, wants, st)
    ensures Peeling(rq, wants, Finish(rq, st, universe)) && Finish(rq, st, universe).queue == []
    decreases universe - st.seen, |st.queue|
  {
    hide Peeling, Step, Bounds;
    if st.queue != [] {
      StepStaysPeeling(rq, wants, st);
      StepStays(rq, st, universe);
      assert Step(rq, st).seen != st.seen ==> st.queue[0].0 in universe - st.seen && st.queue[0].0 !in universe - Step(rq, st).seen;
      FinishStaysPeeling(rq, wants, Step(rq, st), universe);
    }
  }

  lemma {:induction false} FlatRouteIsSeen(rq: Request, wants: seq<Sha>, st: Scan, p: seq<Sha>)
    requires Peeling(rq, wants, st) && st.queue == [] && IsRoute(rq, wants, p) && Cost(rq, p) <= 1
    ensures p[|p| - 1] in st.seen
    decreases |p|
  {
    hide LiveParents;
    if |p| > 1 {
      var q := p[..|p| - 1];
      assert q[|q| - 1] == p[|p| - 2];
      CostIsPositive(rq, q);
      FlatRouteIsSeen(rq, wants, st, q);
      assert p[|p| - 1] in TagTargets(rq.repo, p[|p| - 2]) by { NoParentsOfTags(rq, p[|p| - 2]); }
    }
  }

  lemma {:induction false} CostIsPositive(rq: Request, p: seq<Sha>)
    requires p != []
    ensures Cost(rq, p) >= 1
    decreases |p|
  {
    if |p| > 1 { CostIsPositive(rq, p[..|p| - 1]); }
  }

  lemma NoParentsOfTags(rq: Request, s: Sha)
    ensures IsTag(rq.repo, s) ==> LiveParents(rq, s) == []
  {}

  lemma DepthOneIsExact(rq: Request, wants: seq<Sha>)
    requires rq.depth == 1
    ensures IsExact(rq, wants)
  {
    hide LiveParents, TagTargets, Universe, Bounds, Cost;
    var st := Walked(rq, wants);
    StartStays(rq.repo, wants);
    StartsPeeling(rq, wants);
    FinishStaysPeeling(rq, wants, Start(wants), Universe(rq.repo, wants));
    hide Walked;
    forall x ensures x in st.seen && Held(rq.repo, x) ==> Near(rq, wants, x, 1) { NothingTooDeep(rq, wants, x); }
    forall x | Near(rq, wants, x, 1) ensures x in st.seen {
      var p :| IsRoute(rq, wants, p) && p[|p| - 1] == x && Cost(rq, p) <= 1;
      FlatRouteIsSeen(rq, wants, st, p);
    }
    forall x | LiveParents(rq, x) != [] ensures Held(rq.repo, x) { OnlyCommitsHaveParents(rq, x); }
  }

  lemma StartsPeeling(rq: Request, wants: seq<Sha>)
    ensures Peeling(rq, wants, Start(wants))
  {
    AtHolds(wants, 1);
  }

  lemma OnlyCommitsHaveParents(rq: Request, s: Sha)
    requires LiveParents(rq, s) != []
    ensures IsCommit(rq.repo, s)
  {}

  /** Commits 4 <- 3 <- 1 and a tag 2 on commit 3: asked for commit 1 and the tag at depth two,
      the walk leaves out commit 4, which is two deep. */
  lemma TagsCutShort()
    ensures Held(TAGGED, 4) && Near(DEPTH2, [1, 2], 4, 2) && 4 !in Walked(DEPTH2, [1, 2]).roots && !IsExact(DEPTH2, [1, 2])
  {
    hide Near, LiveParents, Walked;
    WalkOfCommitAndTag();
    LivesOfTagged();
    NearWant(DEPTH2, [1, 2], 2, 1);
    NearStep(DEPTH2, [1, 2], 2, 1, 3, 1);
    NearStep(DEPTH2, [1, 2], 3, 1, 4, 2);
  }
}
