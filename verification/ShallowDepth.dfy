/**
 Exact depth: without tags, the walk includes precisely the commits closer than the
 requested depth and reports precisely those at the limit that still have parents.
 With tags it does not, and a concrete request shows it.
 */
module ShallowDepth {
  import opened Options
  import opened GraphWalk
  import opened ObjectGraph
  import opened Shallow

  ghost function Wanted(rq: Request, wants: seq<Sha>): (r: set<Sha>)
    ensures forall w :: w in r <==> w in wants && w !in rq.exclude
  {
    set w | w in wants && w !in rq.exclude
  }

  ghost function ParentsOf(rq: Request, ss: set<Sha>): (r: set<Sha>)
    ensures forall s, p :: s in ss && p in LiveParents(rq, s) ==> p in r
    ensures forall p :: p in r ==> exists s :: s in ss && p in LiveParents(rq, s)
  {
    set s, p | s in ss && p in LiveParents(rq, s) :: p
  }

  /** Objects fewer than `k` parent steps away from a want that is not excluded. */
  ghost function Ball(rq: Request, wants: seq<Sha>, k: nat): set<Sha> {
    if k == 0 then {} else Wanted(rq, wants) + Ball(rq, wants, k - 1) + ParentsOf(rq, Ball(rq, wants, k - 1))
  }

  /** No want is a tag, and no commit names a tag as its parent. */
  ghost predicate TagFree(rq: Request, wants: seq<Sha>) {
    && (forall w :: w in wants ==> !IsTag(rq.repo, w))
    && (forall s, p :: p in LiveParents(rq, s) ==> !IsTag(rq.repo, p))
  }

  lemma {:induction false} BallGrows(rq: Request, wants: seq<Sha>, j: nat, k: nat)
    requires j <= k
    ensures Ball(rq, wants, j) <= Ball(rq, wants, k)
    decreases k
  {
    hide Wanted, ParentsOf, LiveParents;
    if j < k { BallGrows(rq, wants, j, k - 1); }
  }

  lemma {:induction false} BallAvoids(rq: Request, wants: seq<Sha>, k: nat, x: Sha)
    requires x in Ball(rq, wants, k)
    ensures x !in rq.exclude
    decreases k
  {
    hide Wanted, ParentsOf, LiveParents;
    if k > 0 {
      if x in Ball(rq, wants, k - 1) {
        BallAvoids(rq, wants, k - 1, x);
      } else if x !in Wanted(rq, wants) {
        var s :| s in Ball(rq, wants, k - 1) && x in LiveParents(rq, s);
        LiveIsNotExcluded(rq, s, x);
      }
    }
  }

  /** Once a ball has stopped growing it stays that way. */
  lemma {:induction false} BallSettles(rq: Request, wants: seq<Sha>, j: nat, k: nat)
    requires 0 < j <= k
    requires forall s, p :: s in Ball(rq, wants, j) && p in LiveParents(rq, s) ==> p in Ball(rq, wants, j)
    ensures Ball(rq, wants, k) == Ball(rq, wants, j)
    decreases k
  {
    hide Wanted, ParentsOf, LiveParents, Ball;
    if j < k {
      BallSettles(rq, wants, j, k - 1);
      BallUnfolds(rq, wants, j);
      BallUnfolds(rq, wants, k);
      assert ParentsOf(rq, Ball(rq, wants, j)) <= Ball(rq, wants, j);
    }
  }

  lemma EmptyBall(rq: Request, wants: seq<Sha>)
    ensures Ball(rq, wants, 0) == {}
  {}

  lemma BallUnfolds(rq: Request, wants: seq<Sha>, k: nat)
    requires k > 0
    ensures Ball(rq, wants, k) == Wanted(rq, wants) + Ball(rq, wants, k - 1) + ParentsOf(rq, Ball(rq, wants, k - 1))
  {
    hide Wanted, ParentsOf;
  }

  // ----- the walk at level `d` ---------------------------------------------------------------

  ghost predicate QueueShape(rq: Request, wants: seq<Sha>, st: Scan, d: nat) {
    && (forall i :: 0 <= i < |st.queue| ==> st.queue[i].1 == d || (st.queue[i].1 == d + 1 && d < rq.depth))
    && (forall i, j :: 0 <= i < j < |st.queue| ==> st.queue[i].1 <= st.queue[j].1)
    && (forall e :: e in st.queue ==> (e.0 in rq.exclude || e.0 in Ball(rq, wants, e.1)) && !IsTag(rq.repo, e.0))
  }

  ghost predicate Frontier(rq: Request, wants: seq<Sha>, st: Scan, d: nat) {
    && (d > 0 ==> Ball(rq, wants, d - 1) <= st.seen)
    && st.seen <= Ball(rq, wants, d)
    && (forall x :: x in Ball(rq, wants, d) ==> x in st.seen || (x, d) in st.queue)
    && (d < rq.depth ==> forall x, p :: x in st.seen && p in LiveParents(rq, x) ==>
          p in st.seen || (p, d) in st.queue || (p, d + 1) in st.queue)
  }

  ghost predicate Reported(rq: Request, wants: seq<Sha>, st: Scan) {
    && rq.depth > 0
    && (forall x :: x in st.shallow <==>
          x in st.seen && x !in Ball(rq, wants, rq.depth - 1) && LiveParents(rq, x) != [])
    && (forall x :: x in st.unshallow <==>
          x in st.seen && x in rq.boundaries && IsCommit(rq.repo, x) && x in Ball(rq, wants, rq.depth - 1))
    && (forall x :: x in st.roots <==> x in st.seen && Held(rq.repo, x))
  }

  ghost predicate Exact(rq: Request, wants: seq<Sha>, st: Scan, d: nat) {
    && 0 < d <= rq.depth
    && QueueShape(rq, wants, st, d) && Frontier(rq, wants, st, d) && Reported(rq, wants, st)
  }

  lemma StartsExact(rq: Request, wants: seq<Sha>)
    requires TagFree(rq, wants) && rq.depth > 0
    ensures Exact(rq, wants, Start(wants), 1)
  {
    var st := Start(wants);
    assert Ball(rq, wants, 0) == {};
    forall x | x in wants ensures (x, 1) in st.queue {
      var i :| 0 <= i < |wants| && wants[i] == x;
      assert st.queue[i] == (x, 1);
    }
    forall e | e in st.queue ensures (e.0 in rq.exclude || e.0 in Ball(rq, wants, 1)) && !IsTag(rq.repo, e.0) {
      assert e.0 in wants;
    }
  }

  /** Behind a head of level `d + 1` there is nothing of level `d` left. */
  lemma LevelDrained(rq: Request, wants: seq<Sha>, st: Scan, d: nat)
    requires QueueShape(rq, wants, st, d) && st.queue != [] && st.queue[0].1 == d + 1
    ensures d < rq.depth && QueueShape(rq, wants, st, d + 1) && forall x :: (x, d) !in st.queue
  {
    hide Ball;
    assert forall i :: 0 <= i < |st.queue| ==> st.queue[i].1 == d + 1;
  }

  /** All of level `d` is done: its parents are level `d + 1`. */
  lemma LevelDone(rq: Request, wants: seq<Sha>, st: Scan, d: nat)
    requires 0 < d < rq.depth && Frontier(rq, wants, st, d) && forall x :: (x, d) !in st.queue
    ensures Frontier(rq, wants, st, d + 1)
  {
    hide Wanted, ParentsOf, LiveParents;
    assert Ball(rq, wants, d) == st.seen;
    assert Ball(rq, wants, d + 1) == Wanted(rq, wants) + st.seen + ParentsOf(rq, st.seen);
    assert Wanted(rq, wants) <= Ball(rq, wants, d);
    forall x | x in Ball(rq, wants, d + 1) ensures x in st.seen || (x, d + 1) in st.queue {
      if x !in st.seen {
        var s :| s in st.seen && x in LiveParents(rq, s);
      }
    }
  }

  lemma DropKeepsShape(rq: Request, wants: seq<Sha>, st: Scan, d: nat)
    requires QueueShape(rq, wants, st, d) && st.queue != []
    ensures QueueShape(rq, wants, st.(queue := st.queue[1..]), d)
  {}

  /** The head is already known, or excluded: nothing is owed for it. */
  lemma DropKeepsExact(rq: Request, wants: seq<Sha>, st: Scan, d: nat)
    requires Exact(rq, wants, st, d) && st.queue != [] && (st.queue[0].0 in st.seen || st.queue[0].0 in rq.exclude)
    ensures Exact(rq, wants, st.(queue := st.queue[1..]), d)
  {
    hide Ball;
    var rest := st.(queue := st.queue[1..]);
    DropKeepsShape(rq, wants, st, d);
    forall e | e in st.queue && e.0 !in st.seen && e.0 !in rq.exclude ensures e in rest.queue {}
    forall x | x in Ball(rq, wants, d) ensures x in rest.seen || (x, d) in rest.queue { BallAvoids(rq, wants, d, x); }
    forall x, p | x in st.seen && p in LiveParents(rq, x) ensures p !in rq.exclude { LiveIsNotExcluded(rq, x, p); }
  }

  /** Settling the head at level `d`, with `pushed` parents queued one level down. */
  lemma VisitKeepsFrontier(rq: Request, wants: seq<Sha>, st: Scan, d: nat, st': Scan, pushed: seq<(Sha, nat)>)
    requires Exact(rq, wants, st, d) && st.queue != [] && st.queue[0].1 == d
    requires st.queue[0].0 !in st.seen && st.queue[0].0 !in rq.exclude
    requires st'.seen == st.seen + {st.queue[0].0} && st'.queue == st.queue[1..] + pushed
    requires d < rq.depth ==> forall p :: p in LiveParents(rq, st.queue[0].0) ==> (p, d + 1) in pushed
    ensures Frontier(rq, wants, st', d)
  {
    hide Ball;
    assert st.queue[0] in st.queue;
    forall e | e in st.queue && e.0 != st.queue[0].0 ensures e in st'.queue {}
  }

  lemma VisitKeepsShape(rq: Request, wants: seq<Sha>, st: Scan, d: nat, st': Scan, live: seq<Sha>)
    requires Exact(rq, wants, st, d) && TagFree(rq, wants) && st.queue != [] && st.queue[0].1 == d
    requires st.queue[0].0 !in rq.exclude && d < rq.depth && live == LiveParents(rq, st.queue[0].0)
    requires st'.queue == st.queue[1..] + At(live, d + 1)
    ensures QueueShape(rq, wants, st', d)
  {
    hide Ball, LiveParents;
    assert st.queue[0] in st.queue && st.queue[0].0 in Ball(rq, wants, d);
    BallUnfolds(rq, wants, d + 1);
    forall e | e in st'.queue
      ensures (e.0 in rq.exclude || e.0 in Ball(rq, wants, e.1)) && !IsTag(rq.repo, e.0)
    {
      if e !in st.queue { assert e.0 in live && e.1 == d + 1; }
    }
  }

  /** What is reported about the head of the queue at level `d`. */
  lemma VisitKeepsReports(rq: Request, wants: seq<Sha>, st: Scan, d: nat)
    requires Exact(rq, wants, st, d) && st.queue != [] && st.queue[0].1 == d
    requires st.queue[0].0 !in st.seen && st.queue[0].0 !in rq.exclude
    ensures Reported(rq, wants, Step(rq, st))
  {
    hide Ball, LiveParents;
    var s := st.queue[0].0;
    assert st.queue[0] in st.queue;
    assert s in Ball(rq, wants, d) && s !in Ball(rq, wants, d - 1) && !IsTag(rq.repo, s);
    BallGrows(rq, wants, d, if d < rq.depth then rq.depth - 1 else d);
    VisitReports(rq, st);
    hide Step, Visit;
  }

  lemma VisitReports(rq: Request, st: Scan)
    requires st.queue != [] && st.queue[0].0 !in st.seen && st.queue[0].0 !in rq.exclude && !IsTag(rq.repo, st.queue[0].0)
    ensures var (s, d) := st.queue[0];
      var st' := Step(rq, st);
      && st'.seen == st.seen + {s}
      && st'.roots == st.roots + (if Held(rq.repo, s) then [s] else [])
      && st'.shallow == st.shallow + (if d >= rq.depth && LiveParents(rq, s) != [] then [s] else [])
      && st'.unshallow == st.unshallow + (if d < rq.depth && IsCommit(rq.repo, s) && s in rq.boundaries then [s] else [])
  {
    hide Live;
  }

  lemma StepKeepsExact(rq: Request, wants: seq<Sha>, st: Scan, d: nat)
    requires Exact(rq, wants, st, d) && TagFree(rq, wants) && st.queue != [] && st.queue[0].1 == d
    ensures Exact(rq, wants, Step(rq, st), d)
  {
    hide Ball, Live;
    var s := st.queue[0].0;
    var st' := Step(rq, st);
    assert st.queue[0] in st.queue;
    if s in rq.exclude || s in st.seen {
      DropKeepsExact(rq, wants, st, d);
    } else {
      VisitKeepsReports(rq, wants, st, d);
      DropKeepsShape(rq, wants, st, d);
      if IsCommit(rq.repo, s) && d < rq.depth {
        var live := LiveParents(rq, s);
        AtHolds(live, d + 1);
        VisitKeepsShape(rq, wants, st, d, st', live);
        VisitKeepsFrontier(rq, wants, st, d, st', At(live, d + 1));
      } else {
        assert st'.queue == st.queue[1..] + [];
        VisitKeepsFrontier(rq, wants, st, d, st', []);
      }
    }
  }

  lemma AtHolds(shas: seq<Sha>, d: nat)
    ensures forall p :: p in shas ==> (p, d) in At(shas, d)
  {
    forall p | p in shas ensures (p, d) in At(shas, d) {
      var i :| 0 <= i < |shas| && shas[i] == p;
      assert At(shas, d)[i] == (p, d);
    }
  }

  lemma {:induction false} FinishIsExact(rq: Request, wants: seq<Sha>, st: Scan, d: nat, universe: set<Sha>)
      returns (last: nat)
    requires Shallow.Within(st, universe) && Bounds(Kids(rq.repo), universe)
    requires TagFree(rq, wants) && Exact(rq, wants, st, d)
    ensures Exact(rq, wants, Finish(rq, st, universe), last) && Finish(rq, st, universe).queue == []
    decreases universe - st.seen, |st.queue|
  {
    hide Exact, Step, TagFree, Bounds, Ball;
    last := d;
    if st.queue != [] {
      var d' := HeadLevel(rq, wants, st, d);
      StepKeepsExact(rq, wants, st, d');
      StepStays(rq, st, universe);
      assert Step(rq, st).seen != st.seen ==> st.queue[0].0 in universe - st.seen && st.queue[0].0 !in universe - Step(rq, st).seen;
      last := FinishIsExact(rq, wants, Step(rq, st), d', universe);
    }
  }

  lemma HeadLevel(rq: Request, wants: seq<Sha>, st: Scan, d: nat) returns (d': nat)
    requires Exact(rq, wants, st, d) && st.queue != []
    ensures Exact(rq, wants, st, d') && st.queue[0].1 == d'
  {
    hide Ball;
    d' := st.queue[0].1;
    if d' != d {
      LevelDrained(rq, wants, st, d);
      LevelDone(rq, wants, st, d);
    }
  }

  /** Without tags: the included objects are exactly the held ones of the ball of the
      requested depth, the boundary is exactly the included commits at the limit with
      a sendable parent, and exactly the old boundary commits below it are unshallowed. */
  lemma DepthIsExact(rq: Request, wants: seq<Sha>)
    requires TagFree(rq, wants) && rq.depth > 0
    ensures var st := Walked(rq, wants);
      && (forall x :: x in st.roots <==> x in Ball(rq, wants, rq.depth) && Held(rq.repo, x))
      && (forall x :: x in st.shallow <==>
            x in Ball(rq, wants, rq.depth) && x !in Ball(rq, wants, rq.depth - 1) && LiveParents(rq, x) != [])
      && (forall x :: x in st.unshallow <==>
            x in Ball(rq, wants, rq.depth - 1) && x in rq.boundaries && IsCommit(rq.repo, x))
  {
    hide TagFree, Universe, Bounds, Ball, Exact, LiveParents, Finish;
    StartStays(rq.repo, wants);
    StartsExact(rq, wants);
    var last := FinishIsExact(rq, wants, Start(wants), 1, Universe(rq.repo, wants));
    BallGrows(rq, wants, rq.depth - 1, rq.depth);
    SeenIsBall(rq, wants, Walked(rq, wants), last);
  }

  lemma SeenIsBall(rq: Request, wants: seq<Sha>, st: Scan, last: nat)
    requires Exact(rq, wants, st, last) && st.queue == []
    ensures st.seen == Ball(rq, wants, rq.depth) && Reported(rq, wants, st)
  {
    hide Ball, LiveParents, Reported, QueueShape;
    assert st.seen == Ball(rq, wants, last);
    if last < rq.depth { BallSettles(rq, wants, last, rq.depth); }
  }

  // ----- tags ------------------------------------------------------------------------------------

  /** Commits 4 <- 3 <- 1, and a tag 2 on commit 3. */
  const TAGGED := Repo(
    map[1 := 1, 2 := 2, 3 := 3, 4 := 4],
    map[1 := Commit(None, [3]), 2 := Tag(Some(3)), 3 := Commit(None, [4]), 4 := Commit(None, [])])

  const DEPTH2 := Request(TAGGED, {}, {}, 2)

  ghost predicate Ends(rq: Request, st: Scan, universe: set<Sha>, end: Scan) {
    Shallow.Within(st, universe) && Bounds(Kids(rq.repo), universe) && Finish(rq, st, universe) == end
  }

  /** One step towards the end of a concrete walk. */
  lemma OneStep(rq: Request, st: Scan, universe: set<Sha>, next: Scan, end: Scan)
    requires Shallow.Within(st, universe) && Bounds(Kids(rq.repo), universe)
    requires st.queue != [] && next == Step(rq, st) && Ends(rq, next, universe, end)
    ensures Ends(rq, st, universe, end)
  {
    StepStays(rq, st, universe);
  }

  lemma LivesOfTagged()
    ensures IsTagged(DEPTH2)
  {
    LiveOnly(DEPTH2, 1, [3]);
    LiveOnly(DEPTH2, 3, [4]);
    LiveOnly(DEPTH2, 4, []);
  }

  /** With nothing excluded, at most one parent is simply passed on. */
  lemma LiveOnly(rq: Request, s: Sha, parents: seq<Sha>)
    requires IsCommit(rq.repo, s) && Get(rq.repo, s).parents == parents && |parents| <= 1
    requires rq.exclude == {} && forall p :: p in parents ==> p in rq.repo.index
    ensures LiveParents(rq, s) == parents
  {
    if parents != [] { assert Live(rq, parents[1..]) == []; }
  }

  /** What the two walks below need to know of the request. */
  ghost predicate IsTagged(rq: Request) {
    && rq.exclude == {} && rq.boundaries == {} && rq.depth == 2
    && IsCommit(rq.repo, 1) && LiveParents(rq, 1) == [3]
    && Held(rq.repo, 2) && Get(rq.repo, 2) == Tag(Some(3))
    && IsCommit(rq.repo, 3) && LiveParents(rq, 3) == [4]
    && IsCommit(rq.repo, 4) && LiveParents(rq, 4) == []
  }

  /** A step that meets a tag for the first time. */
  lemma TagStep(rq: Request, st: Scan, t: Sha)
    requires st.queue != [] && st.queue[0].0 !in st.seen && st.queue[0].0 !in rq.exclude
    requires Held(rq.repo, st.queue[0].0) && Get(rq.repo, st.queue[0].0) == Tag(Some(t))
    ensures var (s, d) := st.queue[0];
      Step(rq, st) == Scan(st.seen + {s}, st.roots + [s], st.shallow, st.unshallow, st.queue[1..] + [(t, d)])
  {
    assert At([t], st.queue[0].1) == [(t, st.queue[0].1)];
  }

  /** A step that meets a commit off the client's boundary for the first time. */
  lemma CommitStep(rq: Request, st: Scan, live: seq<Sha>)
    requires st.queue != [] && st.queue[0].0 !in st.seen && st.queue[0].0 !in rq.exclude + rq.boundaries
    requires IsCommit(rq.repo, st.queue[0].0) && LiveParents(rq, st.queue[0].0) == live
    ensures var (s, d) := st.queue[0];
      Step(rq, st) == Scan(st.seen + {s}, st.roots + [s], st.shallow + (if d >= rq.depth && live != [] then [s] else []),
        st.unshallow, st.queue[1..] + (if d < rq.depth then At(live, d + 1) else []))
  {
    hide Live;
  }

  lemma StepsOfTag(rq: Request)
    requires IsTagged(rq)
    ensures Step(rq, Start([2])) == Scan({2}, [2], [], [], [(3, 1)])
    ensures Step(rq, Scan({2}, [2], [], [], [(3, 1)])) == Scan({2, 3}, [2, 3], [], [], [(4, 2)])
    ensures Step(rq, Scan({2, 3}, [2, 3], [], [], [(4, 2)])) == Scan({2, 3, 4}, [2, 3, 4], [], [], [])
  {
    hide LiveParents, Step;
    assert Start([2]).queue == [(2, 1)];
    TagStep(rq, Start([2]), 3);
    CommitStep(rq, Scan({2}, [2], [], [], [(3, 1)]), [4]);
    CommitStep(rq, Scan({2, 3}, [2, 3], [], [], [(4, 2)]), []);
  }

  lemma WalkOfTag()
    ensures Walked(DEPTH2, [2]).roots == [2, 3, 4]
  {
    hide Universe, Bounds, Step;
    StartStays(TAGGED, [2]);
    LivesOfTagged();
    StepsOfTag(DEPTH2);
    var u := Universe(TAGGED, [2]);
    var s1 := Scan({2}, [2], [], [], [(3, 1)]);
    var s2 := Scan({2, 3}, [2, 3], [], [], [(4, 2)]);
    var s3 := Scan({2, 3, 4}, [2, 3, 4], [], [], []);
    StepStays(DEPTH2, Start([2]), u);
    StepStays(DEPTH2, s1, u);
    StepStays(DEPTH2, s2, u);
    OneStep(DEPTH2, s2, u, s3, s3);
    OneStep(DEPTH2, s1, u, s2, s3);
    OneStep(DEPTH2, Start([2]), u, s1, s3);
  }

  lemma StepsOfCommitAndTag(rq: Request)
    requires IsTagged(rq)
    ensures Step(rq, Start([1, 2])) == Scan({1}, [1], [], [], [(2, 1), (3, 2)])
    ensures Step(rq, Scan({1}, [1], [], [], [(2, 1), (3, 2)])) == Scan({1, 2}, [1, 2], [], [], [(3, 2), (3, 1)])
    ensures Step(rq, Scan({1, 2}, [1, 2], [], [], [(3, 2), (3, 1)])) == Scan({1, 2, 3}, [1, 2, 3], [3], [], [(3, 1)])
    ensures Step(rq, Scan({1, 2, 3}, [1, 2, 3], [3], [], [(3, 1)])) == Scan({1, 2, 3}, [1, 2, 3], [3], [], [])
  {
    hide LiveParents, Visit;
    assert Step(rq, Scan({1, 2, 3}, [1, 2, 3], [3], [], [(3, 1)])) == Scan({1, 2, 3}, [1, 2, 3], [3], [], []);
    hide Step;
    assert Start([1, 2]).queue == [(1, 1), (2, 1)];
    CommitStep(rq, Start([1, 2]), [3]);
    TagStep(rq, Scan({1}, [1], [], [], [(2, 1), (3, 2)]), 3);
    CommitStep(rq, Scan({1, 2}, [1, 2], [], [], [(3, 2), (3, 1)]), [4]);
  }

  lemma WalkOfCommitAndTag()
    ensures Walked(DEPTH2, [1, 2]).roots == [1, 2, 3] && Walked(DEPTH2, [1, 2]).shallow == [3]
  {
    hide Universe, Bounds, Step;
    StartStays(TAGGED, [1, 2]);
    LivesOfTagged();
    StepsOfCommitAndTag(DEPTH2);
    var u := Universe(TAGGED, [1, 2]);
    var s0 := Start([1, 2]);
    var s1 := Scan({1}, [1], [], [], [(2, 1), (3, 2)]);
    var s2 := Scan({1, 2}, [1, 2], [], [], [(3, 2), (3, 1)]);
    var s3 := Scan({1, 2, 3}, [1, 2, 3], [3], [], [(3, 1)]);
    var s4 := Scan({1, 2, 3}, [1, 2, 3], [3], [], []);
    StepStays(DEPTH2, s0, u);
    StepStays(DEPTH2, s1, u);
    StepStays(DEPTH2, s2, u);
    StepStays(DEPTH2, s3, u);
    OneStep(DEPTH2, s3, u, s4, s4);
    OneStep(DEPTH2, s2, u, s3, s4);
    OneStep(DEPTH2, s1, u, s2, s4);
    OneStep(DEPTH2, s0, u, s1, s4);
  }

  /** A peeled tag waits behind deeper entries, so asking for more can yield less:
      the tag alone brings in commit 4, the tag together with commit 1 does not. */
  lemma TagsBreakDepth()
    ensures exists rq: Request, wants, more, x ::
      rq.depth > 0 && x in Walked(rq, wants).roots && x !in Walked(rq, more + wants).roots
  {
    WalkOfTag();
    WalkOfCommitAndTag();
    assert [1] + [2] == [1, 2];
    assert 4 in Walked(DEPTH2, [2]).roots && 4 !in Walked(DEPTH2, [1] + [2]).roots;
  }

  /** Without tags that cannot happen. */
  lemma {:induction false} BallOfMore(rq: Request, more: seq<Sha>, wants: seq<Sha>, k: nat)
    ensures Ball(rq, wants, k) <= Ball(rq, more + wants, k)
    decreases k
  {
    hide LiveParents, Wanted, ParentsOf;
    if k > 0 {
      BallOfMore(rq, more, wants, k - 1);
      assert Wanted(rq, wants) <= Wanted(rq, more + wants);
      MoreParents(rq, Ball(rq, wants, k - 1), Ball(rq, more + wants, k - 1));
    }
  }

  lemma MoreParents(rq: Request, ss: set<Sha>, ss': set<Sha>)
    requires ss <= ss'
    ensures ParentsOf(rq, ss) <= ParentsOf(rq, ss')
  {
    hide LiveParents, ParentsOf;
  }

  lemma MoreWantsIncludeMore(rq: Request, more: seq<Sha>, wants: seq<Sha>, x: Sha)
    requires TagFree(rq, more + wants) && rq.depth > 0 && x in Walked(rq, wants).roots
    ensures x in Walked(rq, more + wants).roots
  {
    hide Ball, Walked, LiveParents;
    forall w | w in wants ensures !IsTag(rq.repo, w) { assert w in more + wants; }
    DepthIsExact(rq, wants);
    DepthIsExact(rq, more + wants);
    BallOfMore(rq, more, wants, rq.depth);
  }
}
