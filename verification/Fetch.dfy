/**
 Clone and incremental fetch: the packfile holds exactly the held closure of the wants
 minus the closure of what the client has, and the garbage collector's mark selects
 the same objects as a clone.
 */
module Fetch {
  import opened GraphWalk
  import opened ObjectGraph

  /** Everything reachable from `roots`, including ids that are not held. */
  method ReachableClosure(repo: Repo, roots: seq<Sha>) returns (seen: set<Sha>)
    ensures forall x :: x in seen <==> Reaches(repo, roots, {}, x)
  {
    UniverseBounds(repo, roots);
    var visited;
    seen, visited := Walk(Kids(repo), roots, {}, Universe(repo, roots));
    forall x ensures Reach(Kids(repo), roots, {}, x) <==> Reaches(repo, roots, {}, x) { ReachIsReaches(repo, roots, {}, x); }
  }

  datatype BlobFilter = All | NoBlobs | BlobLimit(limit: nat)

  /** A filter drops blobs only, and never one that was asked for by id. */
  predicate Passes(repo: Repo, wants: seq<Sha>, filter: BlobFilter, s: Sha) {
    IsBlob(repo, s) && s !in wants ==>
      match filter
      case All => true
      case NoBlobs => false
      case BlobLimit(limit) => Get(repo, s).size <= limit
  }

  predicate Packs(repo: Repo, wants: seq<Sha>, filter: BlobFilter, s: Sha) {
    Held(repo, s) && Passes(repo, wants, filter, s)
  }

  /** The packfile lists, of what was visited, the objects the filter lets through. */
  ghost predicate PacksOf(repo: Repo, wants: seq<Sha>, filter: BlobFilter, visited: seq<Sha>, packed: seq<Sha>) {
    && NoRepeats(packed)
    && forall x :: x in packed <==> x in visited && Packs(repo, wants, filter, x)
  }

  lemma PacksNext(repo: Repo, wants: seq<Sha>, filter: BlobFilter, visited: seq<Sha>, packed: seq<Sha>, s: Sha)
    requires PacksOf(repo, wants, filter, visited, packed) && s !in visited
    ensures PacksOf(repo, wants, filter, visited + [s], if Packs(repo, wants, filter, s) then packed + [s] else packed)
  {
    hide Packs;
  }

  method CollectPackObjects(repo: Repo, wants: seq<Sha>, exclude: set<Sha>, filter: BlobFilter)
      returns (packed: seq<Sha>)
    ensures NoRepeats(packed)
    ensures forall x :: x in packed <==> Reaches(repo, wants, exclude, x) && Packs(repo, wants, filter, x)
    ensures Whole(repo, wants, exclude, filter, packed)
  {
    hide Reach;
    var seen, queue := exclude, wants;
    ghost var visited, universe := [], Universe(repo, wants);
    packed := [];
    UniverseBounds(repo, wants);
    WalkStarts(Kids(repo), wants, exclude);
    while queue != []
      invariant Walking(Kids(repo), wants, exclude, seen, visited, queue) && Elements(queue) <= universe
      invariant PacksOf(repo, wants, filter, visited, packed)
      decreases universe - seen, |queue|
    {
      var s := queue[0];
      if s in seen {
        WalkSkips(Kids(repo), wants, exclude, seen, visited, queue);
        queue := queue[1..];
        continue;
      }
      WalkVisits(Kids(repo), wants, exclude, seen, visited, queue, NamedBy(repo, s));
      PacksNext(repo, wants, filter, visited, packed, s);
      hide Walking, PacksOf;
      visited := visited + [s];
      seen, queue := seen + {s}, queue[1..];
      if !Held(repo, s) { continue; }
      var o := Get(repo, s);
      if o.Blob? && s !in wants {
        match filter {
          case NoBlobs => continue;
          case BlobLimit(limit) =>
            if o.size <= limit { packed := packed + [s]; }
            continue;
          case All =>
        }
      }
      queue := queue + Names(o);
      packed := packed + [s];
    }
    WalkEnds(Kids(repo), wants, exclude, seen, visited);
    hide Reaches, Packs, Walking, Whole;
    forall x ensures Reach(Kids(repo), wants, exclude, x) <==> Reaches(repo, wants, exclude, x) { ReachIsReaches(repo, wants, exclude, x); }
    ReachedIsWhole(repo, wants, exclude, filter, packed);
  }

  /** A filter leaves out a blob that was not asked for by id, any under `NoBlobs` and one over the limit
      under a limit; nothing else. */
  lemma PacksIff(repo: Repo, wants: seq<Sha>, filter: BlobFilter, s: Sha)
    ensures Packs(repo, wants, filter, s) <==>
      (Held(repo, s) && !(Get(repo, s).Blob? && s !in wants && (filter == NoBlobs || (filter.BlobLimit? && Get(repo, s).size > filter.limit))))
  {}

  ghost predicate NamedByPacked(repo: Repo, packed: seq<Sha>, x: Sha) { exists v :: v in packed && Links(repo, v, x) }

  /** Read off the objects' own fields: with an object, whatever it names is packed too, unless it is
      excluded or filtered out; and everything packed was wanted or is named by something packed. */
  ghost predicate Whole(repo: Repo, wants: seq<Sha>, exclude: set<Sha>, filter: BlobFilter, packed: seq<Sha>) {
    && (forall x :: x in wants && x !in exclude && Packs(repo, wants, filter, x) ==> x in packed)
    && (forall v, x :: v in packed && Links(repo, v, x) && x !in exclude && Packs(repo, wants, filter, x) ==> x in packed)
    && (forall x :: x in packed ==> x !in exclude && Held(repo, x) && (x in wants || NamedByPacked(repo, packed, x)))
  }

  ghost predicate PackedIfDue(repo: Repo, wants: seq<Sha>, exclude: set<Sha>, filter: BlobFilter, packed: seq<Sha>, x: Sha) {
    x !in exclude && Packs(repo, wants, filter, x) ==> x in packed
  }

  /** Field by field: a packed commit brings its tree and its parents, a tree its entries, a tag its target. */
  lemma WholeByField(repo: Repo, wants: seq<Sha>, exclude: set<Sha>, filter: BlobFilter, packed: seq<Sha>, v: Sha)
    requires Whole(repo, wants, exclude, filter, packed) && v in packed
    ensures Held(repo, v)
    ensures Get(repo, v).Commit? && Get(repo, v).tree.Some? ==>
      PackedIfDue(repo, wants, exclude, filter, packed, Get(repo, v).tree.value)
    ensures Get(repo, v).Commit? ==>
      forall x :: x in Get(repo, v).parents ==> PackedIfDue(repo, wants, exclude, filter, packed, x)
    ensures Get(repo, v).Tree? ==>
      forall x :: x in Get(repo, v).children ==> PackedIfDue(repo, wants, exclude, filter, packed, x)
    ensures Get(repo, v).Tag? && Get(repo, v).target.Some? ==>
      PackedIfDue(repo, wants, exclude, filter, packed, Get(repo, v).target.value)
  {
    hide Packs;
    forall x | Links(repo, v, x) ensures PackedIfDue(repo, wants, exclude, filter, packed, x) {}
  }

  lemma ReachedIsWhole(repo: Repo, wants: seq<Sha>, exclude: set<Sha>, filter: BlobFilter, packed: seq<Sha>)
    requires forall x :: x in packed <==> Reaches(repo, wants, exclude, x) && Packs(repo, wants, filter, x)
    ensures Whole(repo, wants, exclude, filter, packed)
  {
    hide Packs, Links;
    forall x | x in wants && x !in exclude ensures Reaches(repo, wants, exclude, x) { TrailStarts(repo, wants, exclude, x); }
    forall v, x | Reaches(repo, wants, exclude, v) && Links(repo, v, x) && x !in exclude ensures Reaches(repo, wants, exclude, x) {
      TrailGoesOn(repo, wants, exclude, v, x);
    }
    forall x | x in packed ensures x !in exclude && Held(repo, x) && (x in wants || NamedByPacked(repo, packed, x)) {
      PacksIff(repo, wants, filter, x);
      var p :| IsTrail(repo, exclude, p) && p[0] in wants && p[|p| - 1] == x;
      if |p| > 1 {
        var v, q := p[|p| - 2], p[..|p| - 1];
        assert Links(repo, v, p[|p| - 1]);
        assert IsTrail(repo, exclude, q) && q[0] in wants && q[|q| - 1] == v;
        LinkingPacks(repo, wants, filter, v, x);
      }
    }
  }

  lemma TrailStarts(repo: Repo, wants: seq<Sha>, exclude: set<Sha>, x: Sha)
    requires x in wants && x !in exclude
    ensures Reaches(repo, wants, exclude, x)
  {
    assert IsTrail(repo, exclude, [x]) && [x][0] in wants && [x][|[x]| - 1] == x;
  }

  lemma TrailGoesOn(repo: Repo, wants: seq<Sha>, exclude: set<Sha>, v: Sha, x: Sha)
    requires Reaches(repo, wants, exclude, v) && Links(repo, v, x) && x !in exclude
    ensures Reaches(repo, wants, exclude, x)
  {
    hide Links;
    var p :| IsTrail(repo, exclude, p) && p[0] in wants && p[|p| - 1] == v;
    var q := p + [x];
    assert IsTrail(repo, exclude, q) && q[0] in wants && q[|q| - 1] == x;
  }

  /** Whatever names another object is no blob, and passes every filter. */
  lemma LinkingPacks(repo: Repo, wants: seq<Sha>, filter: BlobFilter, v: Sha, x: Sha)
    requires Links(repo, v, x)
    ensures Packs(repo, wants, filter, v)
  {}

  function HeldOnly(repo: Repo, haves: seq<Sha>): (r: seq<Sha>)
    ensures forall x :: x in r <==> x in haves && x in repo.index
  {
    if haves == [] then []
    else (if haves[0] in repo.index then [haves[0]] else []) + HeldOnly(repo, haves[1..])
  }

  lemma ClosureIsClosed(repo: Repo, roots: seq<Sha>, closure: set<Sha>)
    requires forall x :: x in closure <==> Reaches(repo, roots, {}, x)
    ensures forall v, c :: v in closure && c in Kids(repo)(v) ==> c in closure
  {
    hide Reaches, Links;
    forall v, c | v in closure && c in Kids(repo)(v) ensures c in closure {
      KidsAre(repo, v, c);
      TrailGoesOn(repo, roots, {}, v, c);
    }
  }

  /** The final negotiation round: wants minus everything below the common haves,
      each object once. */
  method FetchPack(repo: Repo, wants: seq<Sha>, haves: seq<Sha>, filter: BlobFilter) returns (packed: seq<Sha>)
    ensures NoRepeats(packed)
    ensures forall x :: x in packed <==>
      Reaches(repo, wants, {}, x) && !Reaches(repo, HeldOnly(repo, haves), {}, x) && Packs(repo, wants, filter, x)
  {
    hide Reach, Reaches, Packs;
    var commons := HeldOnly(repo, haves);
    var exclude := ReachableClosure(repo, commons);
    ClosureIsClosed(repo, commons, exclude);
    packed := CollectPackObjects(repo, wants, exclude, filter);
    forall x ensures Reaches(repo, wants, exclude, x) <==> Reaches(repo, wants, {}, x) && x !in exclude {
      AvoidingAClosedSet(Kids(repo), wants, exclude, x);
      ReachIsReaches(repo, wants, exclude, x);
      ReachIsReaches(repo, wants, {}, x);
    }
  }

  /** A client that holds the closure of its haves ends up with every held object of
      the wants' closure, short of the blobs it asked to filter out. */
  lemma ClientEndsComplete(repo: Repo, wants: seq<Sha>, haves: seq<Sha>, filter: BlobFilter,
                           packed: seq<Sha>, client: set<Sha>, x: Sha)
    requires forall y :: y in packed <==>
      Reaches(repo, wants, {}, y) && !Reaches(repo, HeldOnly(repo, haves), {}, y) && Packs(repo, wants, filter, y)
    requires forall h, y :: h in haves && Held(repo, y) && Reaches(repo, [h], {}, y) ==> y in client
    requires Reaches(repo, wants, {}, x) && Held(repo, x)
    ensures x in client || x in packed || (IsBlob(repo, x) && x !in wants && !filter.All?)
  {
    var commons := HeldOnly(repo, haves);
    if Reaches(repo, commons, {}, x) {
      var p :| IsTrail(repo, {}, p) && p[0] in commons && p[|p| - 1] == x;
      assert p[0] in [p[0]];
      assert Reaches(repo, [p[0]], {}, x);
    }
  }

  // ----- the garbage collector's mark ------------------------------------------------------------

  /** Content ids of those listed objects that the index knows. */
  function Translate(repo: Repo, shas: seq<Sha>): (r: seq<Oid>)
    ensures forall o :: o in r <==> exists s :: s in shas && s in repo.index && repo.index[s] == o
  {
    if shas == [] then []
    else (if shas[0] in repo.index then [repo.index[shas[0]]] else []) + Translate(repo, shas[1..])
  }

  function OidNames(repo: Repo, id: Oid): seq<Oid> {
    if id in repo.objects then Translate(repo, Names(repo.objects[id])) else []
  }

  function OidKids(repo: Repo): Edges {
    id => OidNames(repo, id)
  }

  /** A stored object names another, by the git id the index has for it. */
  ghost predicate OidLinks(repo: Repo, id: Oid, to: Oid) {
    id in repo.objects && exists c :: Refers(repo.objects[id], c) && c in repo.index && repo.index[c] == to
  }

  ghost predicate IsOidTrail(repo: Repo, p: seq<Oid>) {
    p != [] && forall i :: 0 < i < |p| ==> OidLinks(repo, p[i - 1], p[i])
  }

  /** Storage ids reached from `roots` by what the objects' fields name. */
  ghost predicate OidReaches(repo: Repo, roots: seq<Oid>, x: Oid) {
    exists p :: IsOidTrail(repo, p) && p[0] in roots && p[|p| - 1] == x
  }

  lemma OidKidsAre(repo: Repo, id: Oid, to: Oid)
    ensures to in OidKids(repo)(id) <==> OidLinks(repo, id, to)
  {
    hide Names, Refers;
    if id in repo.objects { forall c ensures c in Names(repo.objects[id]) <==> Refers(repo.objects[id], c) { NamesRefer(repo.objects[id], c); } }
  }

  lemma OidReachIsReaches(repo: Repo, roots: seq<Oid>, x: Oid)
    ensures Reach(OidKids(repo), roots, {}, x) <==> OidReaches(repo, roots, x)
  {
    hide OidKids, OidLinks;
    forall s, y ensures y in OidKids(repo)(s) <==> OidLinks(repo, s, y) { OidKidsAre(repo, s, y); }
    if Reach(OidKids(repo), roots, {}, x) {
      var p :| IsPath(OidKids(repo), {}, p) && p[0] in roots && p[|p| - 1] == x;
      assert IsOidTrail(repo, p);
    }
    if OidReaches(repo, roots, x) {
      var p :| IsOidTrail(repo, p) && p[0] in roots && p[|p| - 1] == x;
      assert IsPath(OidKids(repo), {}, p);
    }
  }

  function Unseen(ids: seq<Oid>, seen: set<Oid>): (r: seq<Oid>)
    ensures forall x :: x in r <==> x in ids && x !in seen
  {
    if ids == [] then [] else (if ids[0] in seen then [] else [ids[0]]) + Unseen(ids[1..], seen)
  }

  ghost function OidUniverse(repo: Repo, roots: seq<Oid>): set<Oid> {
    Elements(roots) + repo.index.Values
  }

  lemma OidUniverseBounds(repo: Repo, roots: seq<Oid>)
    ensures Elements(roots) <= OidUniverse(repo, roots) && Bounds(OidKids(repo), OidUniverse(repo, roots))
  {
    forall v, c | v in OidUniverse(repo, roots) && c in OidKids(repo)(v) ensures c in OidUniverse(repo, roots) {
      var s :| s in repo.index && repo.index[s] == c;
    }
  }

  /** The mark: every object reachable from the roots, roots included. */
  method ReachableFrom(repo: Repo, roots: seq<Oid>) returns (visited: set<Oid>)
    ensures forall x :: x in visited <==> OidReaches(repo, roots, x)
    ensures forall r :: r in roots ==> r in visited
    ensures forall v, x :: v in visited && OidLinks(repo, v, x) ==> x in visited
  {
    hide Reach, OidReaches, OidLinks;
    visited := {};
    var queue := roots;
    ghost var trail, universe := [], OidUniverse(repo, roots);
    OidUniverseBounds(repo, roots);
    WalkStarts(OidKids(repo), roots, {});
    while queue != []
      invariant Walking(OidKids(repo), roots, {}, visited, trail, queue) && Elements(queue) <= universe
      decreases universe - visited, |queue|
    {
      var id := queue[0];
      if id in visited {
        WalkSkips(OidKids(repo), roots, {}, visited, trail, queue);
        queue := queue[1..];
      } else {
        var pushed := Unseen(OidNames(repo, id), visited + {id});
        WalkVisits(OidKids(repo), roots, {}, visited, trail, queue, pushed);
        trail := trail + [id];
        visited, queue := visited + {id}, queue[1..] + pushed;
      }
    }
    WalkEnds(OidKids(repo), roots, {}, visited, trail);
    forall r | r in roots ensures r in visited { ReachRoot(OidKids(repo), roots, {}, r); }
    forall v, x | v in visited && OidLinks(repo, v, x) ensures x in visited {
      OidKidsAre(repo, v, x);
      ReachStep(OidKids(repo), roots, {}, v, x);
    }
    forall x ensures Reach(OidKids(repo), roots, {}, x) <==> OidReaches(repo, roots, x) { OidReachIsReaches(repo, roots, x); }
  }

  /** The index is one-to-one and everything it names reads. */
  ghost predicate Bijective(repo: Repo) {
    && (forall s, s' :: s in repo.index && s' in repo.index && repo.index[s] == repo.index[s'] ==> s == s')
    && (forall s :: s in repo.index ==> repo.index[s] in repo.objects)
  }

  lemma EdgeTranslates(repo: Repo, s: Sha, c: Sha)
    requires Held(repo, s) && c in Kids(repo)(s) && c in repo.index
    ensures repo.index[c] in OidKids(repo)(repo.index[s])
  {}

  lemma {:induction false} ShaPathMarks(repo: Repo, wants: seq<Sha>, p: seq<Sha>, i: nat)
    requires Bijective(repo) && IsPath(Kids(repo), {}, p) && p[0] in wants && i < |p| && p[i] in repo.index
    ensures Reach(OidKids(repo), Translate(repo, wants), {}, repo.index[p[i]])
    decreases i
  {
    hide Reach, Translate, OidKids, Names;
    if i == 0 {
      ReachRoot(OidKids(repo), Translate(repo, wants), {}, repo.index[p[0]]);
    } else {
      assert p[i] in Kids(repo)(p[i - 1]) && Held(repo, p[i - 1]);
      ShaPathMarks(repo, wants, p, i - 1);
      EdgeTranslates(repo, p[i - 1], p[i]);
      ReachStep(OidKids(repo), Translate(repo, wants), {}, repo.index[p[i - 1]], repo.index[p[i]]);
    }
  }

  lemma {:induction false} OidPathPacks(repo: Repo, wants: seq<Sha>, p: seq<Oid>, i: nat) returns (s: Sha)
    requires Bijective(repo) && IsPath(OidKids(repo), {}, p) && p[0] in Translate(repo, wants) && i < |p|
    ensures s in repo.index && repo.index[s] == p[i] && Reach(Kids(repo), wants, {}, s)
    decreases i
  {
    if i == 0 {
      s :| s in wants && s in repo.index && repo.index[s] == p[0];
      ReachRoot(Kids(repo), wants, {}, s);
    } else {
      var before := OidPathPacks(repo, wants, p, i - 1);
      assert p[i] in OidKids(repo)(p[i - 1]);
      s :| s in Names(repo.objects[p[i - 1]]) && s in repo.index && repo.index[s] == p[i];
      assert s in Kids(repo)(before);
      ReachStep(Kids(repo), wants, {}, before, s);
    }
  }

  /** What the mark keeps for a set of refs is what a clone of those refs packs. */
  lemma MarkIsClone(repo: Repo, wants: seq<Sha>, marked: set<Oid>, packed: seq<Sha>)
    requires Bijective(repo)
    requires forall x :: x in marked <==> OidReaches(repo, Translate(repo, wants), x)
    requires forall x :: x in packed <==> Reaches(repo, wants, {}, x) && Packs(repo, wants, All, x)
    ensures marked == Elements(Translate(repo, packed))
  {
    hide Reach, Reaches, OidReaches, Kids, OidKids, Translate, Names;
    forall x ensures Reach(Kids(repo), wants, {}, x) <==> Reaches(repo, wants, {}, x) { ReachIsReaches(repo, wants, {}, x); }
    forall x ensures Reach(OidKids(repo), Translate(repo, wants), {}, x) <==> OidReaches(repo, Translate(repo, wants), x) {
      OidReachIsReaches(repo, Translate(repo, wants), x);
    }
    forall o | o in marked ensures o in Translate(repo, packed) {
      var s := MarkedIsReached(repo, wants, o);
      assert s in packed;
    }
    forall o | o in Translate(repo, packed) ensures o in marked {
      var s :| s in packed && s in repo.index && repo.index[s] == o;
      ReachedIsMarked(repo, wants, s);
    }
  }

  lemma MarkedIsReached(repo: Repo, wants: seq<Sha>, o: Oid) returns (s: Sha)
    requires Bijective(repo) && Reach(OidKids(repo), Translate(repo, wants), {}, o)
    ensures s in repo.index && repo.index[s] == o && Reach(Kids(repo), wants, {}, s)
  {
    hide Translate, Names;
    var p :| IsPath(OidKids(repo), {}, p) && p[0] in Translate(repo, wants) && p[|p| - 1] == o;
    s := OidPathPacks(repo, wants, p, |p| - 1);
  }

  lemma ReachedIsMarked(repo: Repo, wants: seq<Sha>, s: Sha)
    requires Bijective(repo) && s in repo.index && Reach(Kids(repo), wants, {}, s)
    ensures Reach(OidKids(repo), Translate(repo, wants), {}, repo.index[s])
  {
    hide Translate, Names;
    var p :| IsPath(Kids(repo), {}, p) && p[0] in wants && p[|p| - 1] == s;
    ShaPathMarks(repo, wants, p, |p| - 1);
  }
}
