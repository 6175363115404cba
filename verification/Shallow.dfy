/**
 The depth-limited commit walk behind shallow clones and deepening fetches: which
 commits it includes, which it reports as the new boundary, and which old boundary
 commits it walks past.
 */
module Shallow {
  import opened GraphWalk
  import opened ObjectGraph

  /** `depth` counts commits, at least one; `exclude` is what the client already has;
      `boundaries` are the client's current shallow commits. */
  datatype Request = Request(repo: Repo, exclude: set<Sha>, boundaries: set<Sha>, depth: nat)

  datatype Scan = Scan(seen: set<Sha>, roots: seq<Sha>, shallow: seq<Sha>, unshallow: seq<Sha>, queue: seq<(Sha, nat)>)

  function Live(rq: Request, parents: seq<Sha>): (r: seq<Sha>)
    ensures forall p :: p in r <==> p in parents && p !in rq.exclude && p in rq.repo.index
  {
    if parents == [] then []
    else (if parents[0] !in rq.exclude && parents[0] in rq.repo.index then [parents[0]] else []) + Live(rq, parents[1..])
  }

  /** The parents the server could still send. */
  function LiveParents(rq: Request, s: Sha): seq<Sha> {
    if IsCommit(rq.repo, s) then Live(rq, Get(rq.repo, s).parents) else []
  }

  lemma LiveParentsAre(rq: Request, s: Sha, p: Sha)
    ensures p in LiveParents(rq, s) <==>
      IsCommit(rq.repo, s) && p in Get(rq.repo, s).parents && p !in rq.exclude && p in rq.repo.index
  {}

  function At(shas: seq<Sha>, d: nat): (r: seq<(Sha, nat)>)
    ensures |r| == |shas| && forall i :: 0 <= i < |shas| ==> r[i] == (shas[i], d)
  {
    seq(|shas|, i requires 0 <= i < |shas| => (shas[i], d))
  }

  function Start(wants: seq<Sha>): Scan {
    Scan({}, [], [], [], At(wants, 1))
  }

  /** What the walk does with a held object it has not met before. */
  function Visit(rq: Request, st: Scan, s: Sha, d: nat): Scan
    requires Held(rq.repo, s)
  {
    var st1 := st.(seen := st.seen + {s}, roots := st.roots + [s]);
    match Get(rq.repo, s)
    case Tag(target) => st1.(queue := st1.queue + At(Listed(target), d))
    case Commit(_, _) =>
      var live := LiveParents(rq, s);
      if d < rq.depth then
        st1.(queue := st1.queue + At(live, d + 1),
             unshallow := if s in rq.boundaries then st1.unshallow + [s] else st1.unshallow)
      else if live != [] then st1.(shallow := st1.shallow + [s])
      else st1
    case _ => st1
  }

  function Step(rq: Request, st: Scan): Scan
    requires st.queue != []
  {
    var (s, d) := st.queue[0];
    var rest := st.(queue := st.queue[1..]);
    if s in rq.exclude || s in st.seen then rest
    else if !Held(rq.repo, s) then rest.(seen := st.seen + {s})
    else Visit(rq, rest, s, d)
  }

  ghost predicate Within(st: Scan, universe: set<Sha>) {
    forall e :: e in st.queue ==> e.0 in universe
  }

  lemma StepStays(rq: Request, st: Scan, universe: set<Sha>)
    requires st.queue != [] && Within(st, universe) && Bounds(Kids(rq.repo), universe)
    ensures Within(Step(rq, st), universe)
    ensures (Step(rq, st).seen == st.seen && |Step(rq, st).queue| < |st.queue|) ||
            (st.queue[0].0 in universe && st.queue[0].0 !in st.seen && Step(rq, st).seen == st.seen + {st.queue[0].0})
  {
    var (s, d) := st.queue[0];
    assert st.queue[0] in st.queue;
    if s !in rq.exclude && s !in st.seen && Held(rq.repo, s) {
      forall c | c in LiveParents(rq, s) || (Get(rq.repo, s).Tag? && c in Listed(Get(rq.repo, s).target))
        ensures c in universe
      {
        assert c in Kids(rq.repo)(s);
      }
    }
  }

  /** The walk run to its end. */
  ghost function Finish(rq: Request, st: Scan, universe: set<Sha>): Scan
    requires Within(st, universe) && Bounds(Kids(rq.repo), universe)
    decreases universe - st.seen, |st.queue|
  {
    if st.queue == [] then st
    else
      StepStays(rq, st, universe);
      assert Step(rq, st).seen != st.seen ==> st.queue[0].0 in universe - st.seen && st.queue[0].0 !in universe - Step(rq, st).seen;
      Finish(rq, Step(rq, st), universe)
  }

  lemma StartStays(repo: Repo, wants: seq<Sha>)
    ensures Within(Start(wants), Universe(repo, wants)) && Bounds(Kids(repo), Universe(repo, wants))
  {
    UniverseBounds(repo, wants);
    forall e | e in At(wants, 1) ensures e.0 in Universe(repo, wants) { assert e.0 in Elements(wants); }
  }

  ghost function Walked(rq: Request, wants: seq<Sha>): Scan {
    StartStays(rq.repo, wants);
    Finish(rq, Start(wants), Universe(rq.repo, wants))
  }

  /** The loop of the walk. */
  method CommitWalk(rq: Request, wants: seq<Sha>) returns (st: Scan)
    ensures st == Walked(rq, wants)
  {
    StartStays(rq.repo, wants);
    st := Start(wants);
    ghost var universe := Universe(rq.repo, wants);
    hide Universe, Bounds;
    while st.queue != []
      invariant Within(st, universe) && Bounds(Kids(rq.repo), universe)
      invariant Finish(rq, st, universe) == Walked(rq, wants)
      decreases universe - st.seen, |st.queue|
    {
      StepStays(rq, st, universe);
      var (s, d) := st.queue[0];
      ghost var next := Step(rq, st);
      st := st.(queue := st.queue[1..]);
      if s !in rq.exclude && s !in st.seen {
        if !Held(rq.repo, s) {
          st := st.(seen := st.seen + {s});
        } else {
          st := Visit(rq, st, s, d);
        }
      }
      assert st == next;
    }
  }

  // ----- for every request: nothing is cut without being reported --------------------------------

  predicate Queued(st: Scan, s: Sha) {
    exists i :: 0 <= i < |st.queue| && st.queue[i].0 == s
  }

  ghost predicate AllMet(rq: Request, st: Scan, s: Sha) {
    forall p :: p in LiveParents(rq, s) ==> p in st.seen || Queued(st, p)
  }

  ghost predicate Honest(rq: Request, st: Scan) {
    && NoRepeats(st.roots)
    && (forall s :: s in st.roots ==> s in st.seen && Held(rq.repo, s))
    && (forall s :: s in st.seen && Held(rq.repo, s) ==> s in st.roots)
    && (forall s :: s in st.roots ==> s in st.shallow || AllMet(rq, st, s))
    && (forall s :: s in st.unshallow ==> s in st.roots && s in rq.boundaries && AllMet(rq, st, s))
    && (forall s :: s in st.shallow ==> s in st.roots && IsCommit(rq.repo, s) && LiveParents(rq, s) != [])
  }

  /** Whatever was queued or seen is still queued or seen. */
  lemma MetStaysMet(rq: Request, st: Scan, s: Sha)
    requires st.queue != [] && (s in st.seen || Queued(st, s)) && s !in rq.exclude
    ensures s in Step(rq, st).seen || Queued(Step(rq, st), s)
  {
    var st' := Step(rq, st);
    if s !in st.seen && st.queue[0].0 != s {
      var i :| 0 <= i < |st.queue| && st.queue[i].0 == s;
      assert st'.queue[i - 1] == st.queue[i];
    }
  }

  lemma StepIsHonest(rq: Request, st: Scan)
    requires st.queue != [] && Honest(rq, st)
    ensures Honest(rq, Step(rq, st))
  {
    hide Live, LiveParents;
    var (s, d) := st.queue[0];
    forall x | x in st.roots && AllMet(rq, st, x) ensures AllMet(rq, Step(rq, st), x) { MetParentsStayMet(rq, st, x); }
    if s !in rq.exclude && s !in st.seen && Held(rq.repo, s) { ParentsAreMet(rq, st); }
    hide AllMet;
  }

  lemma MetParentsStayMet(rq: Request, st: Scan, x: Sha)
    requires st.queue != [] && AllMet(rq, st, x)
    ensures AllMet(rq, Step(rq, st), x)
  {
    hide LiveParents, Step, Queued;
    forall p | p in LiveParents(rq, x) ensures p in Step(rq, st).seen || Queued(Step(rq, st), p) {
      LiveIsNotExcluded(rq, x, p);
      MetStaysMet(rq, st, p);
    }
  }

  /** The parents of the object just met are queued, unless it is at the limit. */
  lemma ParentsAreMet(rq: Request, st: Scan)
    requires st.queue != [] && st.queue[0].0 !in rq.exclude && st.queue[0].0 !in st.seen && Held(rq.repo, st.queue[0].0)
    ensures var (s, d) := st.queue[0];
      AllMet(rq, Step(rq, st), s) || (d >= rq.depth && IsCommit(rq.repo, s) && LiveParents(rq, s) != [])
  {
    hide Live;
    var (s, d) := st.queue[0];
    var live, st' := LiveParents(rq, s), Step(rq, st);
    if live != [] && d < rq.depth {
      forall p | p in live ensures Queued(st', p) {
        var i :| 0 <= i < |live| && live[i] == p;
        assert st'.queue[|st.queue| - 1 + i] == (p, d + 1);
      }
    }
  }

  lemma LiveIsNotExcluded(rq: Request, s: Sha, p: Sha)
    requires p in LiveParents(rq, s)
    ensures p !in rq.exclude && p in rq.repo.index
  {}

  lemma {:induction false} FinishIsHonest(rq: Request, st: Scan, universe: set<Sha>)
    requires Within(st, universe) && Bounds(Kids(rq.repo), universe) && Honest(rq, st)
    ensures Honest(rq, Finish(rq, st, universe)) && Finish(rq, st, universe).queue == []
    decreases universe - st.seen, |st.queue|
  {
    hide Bounds, Honest, Step;
    if st.queue != [] {
      StepStays(rq, st, universe);
      StepIsHonest(rq, st);
      assert Step(rq, st).seen != st.seen ==> st.queue[0].0 in universe - st.seen && st.queue[0].0 !in universe - Step(rq, st).seen;
      FinishIsHonest(rq, Step(rq, st), universe);
    }
  }

  ghost predicate ParentsIncluded(rq: Request, st: Scan, s: Sha) {
    forall p :: p in LiveParents(rq, s) && Held(rq.repo, p) ==> p in st.roots
  }

  /** Every included commit is reported as a boundary or has all its sendable parents
      included, and an unshallowed commit always has. No condition on tags. */
  lemma NothingCutSilently(rq: Request, wants: seq<Sha>, s: Sha)
    ensures var st := Walked(rq, wants); s in st.roots ==> s in st.shallow || ParentsIncluded(rq, st, s)
    ensures var st := Walked(rq, wants);
      s in st.unshallow ==> s in rq.boundaries && s in st.roots && ParentsIncluded(rq, st, s)
    ensures NoRepeats(Walked(rq, wants).roots)
    ensures forall x :: x in Walked(rq, wants).roots ==> Held(rq.repo, x)
  {
    StartStays(rq.repo, wants);
    hide Universe, Bounds;
    assert Honest(rq, Start(wants));
    FinishIsHonest(rq, Start(wants), Universe(rq.repo, wants));
    var st := Walked(rq, wants);
    assert Honest(rq, st) && forall p :: !Queued(st, p);
    assert s in st.roots || s in st.unshallow ==> s in st.shallow || AllMet(rq, st, s);
  }
}
