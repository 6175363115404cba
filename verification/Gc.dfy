/**
 The garbage collector's mark and sweep over the loose files of one node: the keep
 set is closed under delta bases, so at every point of the sweep, and whatever is
 written meanwhile, everything reachable from the collected roots reads as before.
 */
module Gc {
  import opened Bytes
  import opened Options
  import opened GraphWalk
  import ObjectGraph
  import Fetch
  import opened PackFormat
  import opened DeltaStore
  import opened DeltaChains

  /** How content parses, by object; the type byte comes from the object's own header. */
  type Decoder = (Oid, seq<byte>) -> ObjectGraph.Object

  function Ids(s: Disk): set<Oid> { s.loose.Keys + s.packs.Keys }

  /** The object graph as read from the store through the git-id index. */
  function View(env: Env, s: Disk, index: map<ObjectGraph.Sha, Oid>, decode: Decoder): ObjectGraph.Repo {
    ObjectGraph.Repo(index, map id | id in Ids(s) && ReadObject(env, s, id).Ok? :: decode(id, ReadObject(env, s, id).value))
  }

  /** The graph has exactly the objects that read, loose or packed, each as it parses. */
  lemma ViewIsWhatReads(env: Env, s: Disk, index: map<ObjectGraph.Sha, Oid>, decode: Decoder, id: Oid)
    ensures var repo := View(env, s, index, decode);
      && repo.index == index && (id in repo.objects <==> ReadObject(env, s, id).Ok?)
      && (id in repo.objects ==> repo.objects[id] == decode(id, ReadObject(env, s, id).value))
  {
    if id !in Ids(s) { assert ReadObject(env, s, id).Corrupt?; }
  }

  // ----- delta-base closure ------------------------------------------------------------------------

  function BasesOf(s: Disk, id: Oid): seq<Oid> {
    if BaseOf(s, id).Some? then [BaseOf(s, id).value] else []
  }

  function BaseEdges(s: Disk): Edges { id => BasesOf(s, id) }

  ghost predicate BaseClosed(s: Disk, keep: set<Oid>) {
    forall id :: id in keep && BaseOf(s, id).Some? ==> BaseOf(s, id).value in keep
  }

  ghost function BaseUniverse(s: Disk, marked: set<Oid>): set<Oid> {
    marked + set id | id in Ids(s) && BaseOf(s, id).Some? :: BaseOf(s, id).value
  }

  /** Exactly the marked objects and everything their delta chains rest on. */
  method CloseUnderBases(s: Disk, marked: set<Oid>, order: seq<Oid>) returns (keep: set<Oid>)
    requires Elements(order) == marked
    ensures marked <= keep && BaseClosed(s, keep)
    ensures forall x :: x in keep <==> Reach(BaseEdges(s), order, {}, x)
  {
    hide Reach;
    keep := marked;
    var frontier := order;
    forall x | x in marked ensures Reach(BaseEdges(s), order, {}, x) { ReachRoot(BaseEdges(s), order, {}, x); }
    ghost var universe := BaseUniverse(s, marked);
    while frontier != []
      invariant marked <= keep <= universe
      invariant Elements(frontier) <= keep
      invariant forall x :: x in keep ==> Reach(BaseEdges(s), order, {}, x)
      invariant forall x :: x in keep && BaseOf(s, x).Some? ==> x in frontier || BaseOf(s, x).value in keep
      decreases universe - keep, |frontier|
    {
      var id := frontier[|frontier| - 1];
      frontier := frontier[..|frontier| - 1];
      assert id in keep;
      if BaseOf(s, id).Some? && BaseOf(s, id).value !in keep {
        ReachStep(BaseEdges(s), order, {}, id, BaseOf(s, id).value);
        assert id in Ids(s);
        keep := keep + {BaseOf(s, id).value};
        frontier := frontier + [BaseOf(s, id).value];
      }
    }
    forall x | Reach(BaseEdges(s), order, {}, x) ensures x in keep {
      ClosedHoldsReach(BaseEdges(s), order, {}, keep, x);
    }
  }

  method ListSet(marked: set<Oid>) returns (order: seq<Oid>)
    ensures Elements(order) == marked
  {
    order := [];
    var left := marked;
    while left != {}
      invariant Elements(order) + left == marked
      decreases left
    {
      var id :| id in left;
      left, order := left - {id}, order + [id];
    }
  }

  // ----- the sweep ---------------------------------------------------------------------------------

  datatype Fence = Fence(keep: set<Oid>, mtime: map<Oid, nat>, now: nat, grace: nat)

  /** A file whose time cannot be read, or lies in the future, counts as new. */
  function Age(f: Fence, id: Oid): nat {
    if id in f.mtime && f.mtime[id] < f.now then f.now - f.mtime[id] else 0
  }

  predicate Sweepable(f: Fence, s: Disk, id: Oid) {
    id !in f.keep && id in s.loose && Age(f, id) >= f.grace
  }

  /** No grace at all, or the file's time is known and a whole grace back. */
  predicate PastGrace(f: Fence, id: Oid) {
    f.grace == 0 || (id in f.mtime && f.mtime[id] + f.grace <= f.now)
  }

  lemma AgeIsPast(f: Fence, id: Oid)
    ensures Age(f, id) >= f.grace <==> PastGrace(f, id)
  {}

  function Doomed(f: Fence, s: Disk, ids: seq<Oid>): set<Oid> {
    set id | id in ids && Sweepable(f, s, id)
  }

  function Young(f: Fence, s: Disk, ids: seq<Oid>): set<Oid> {
    set id | id in ids && id !in f.keep && id in s.loose && Age(f, id) < f.grace
  }

  function Freed(f: Fence, s: Disk, ids: seq<Oid>): nat {
    if ids == [] then 0
    else
      var id := ids[|ids| - 1];
      Freed(f, s, ids[..|ids| - 1]) + if Sweepable(f, s, id) then FileLen(s.loose[id]) else 0
  }

  function Swept(s: Disk, dead: set<Oid>): Disk { s.(loose := s.loose - dead) }

  datatype Stats = Stats(reclaimed: nat, bytesFreed: nat, skippedGrace: nat)

  /** Files of the first `stop` candidates are gone exactly if not kept and past their grace;
      a pass that dies midway has simply stopped early. */
  method Sweep(store: ObjectStore, candidates: seq<Oid>, f: Fence, stop: nat) returns (stats: Stats)
    requires NoRepeats(candidates) && stop <= |candidates|
    modifies store
    ensures store.Contents() == Swept(old(store.Contents()), Doomed(f, old(store.Contents()), candidates[..stop]))
    ensures forall x :: x in old(store.loose) ==>
      (x !in store.loose <==>
        x in candidates[..stop] && x !in f.keep && (f.grace == 0 || (x in f.mtime && f.mtime[x] + f.grace <= f.now)))
    ensures stats.reclaimed == |old(store.loose).Keys - store.loose.Keys|
    ensures stats.skippedGrace == |set x | x in candidates[..stop] && x !in f.keep && x in store.loose|
    ensures stats.bytesFreed == Freed(f, old(store.Contents()), candidates[..stop])
  {
    hide Age, Doomed, Young, Freed;
    ghost var s := store.Contents();
    NothingYet(f, s, candidates);
    stats := Stats(0, 0, 0);
    for i := 0 to stop
      invariant store.Contents() == Swept(s, Doomed(f, s, candidates[..i]))
      invariant stats == Stats(|Doomed(f, s, candidates[..i])|, Freed(f, s, candidates[..i]), |Young(f, s, candidates[..i])|)
    {
      var id := candidates[i];
      OneMore(f, s, candidates, i);
      assert id in store.loose <==> id in s.loose;
      if id in f.keep || id !in store.loose { continue; }
      if Age(f, id) < f.grace {
        stats := stats.(skippedGrace := stats.skippedGrace + 1);
        continue;
      }
      stats := stats.(bytesFreed := stats.bytesFreed + FileLen(store.loose[id]));
      store.loose := store.loose - {id};
      stats := stats.(reclaimed := stats.reclaimed + 1);
    }
    DoomedInTimes(f, s, candidates[..stop]);
    GoneAndLeft(f, s, store.Contents(), candidates[..stop]);
  }

  lemma GoneAndLeft(f: Fence, s: Disk, s': Disk, ids: seq<Oid>)
    requires s' == Swept(s, Doomed(f, s, ids))
    ensures s.loose.Keys - s'.loose.Keys == Doomed(f, s, ids)
    ensures (set x | x in ids && x !in f.keep && x in s'.loose) == Young(f, s, ids)
  {
    hide Age;
  }

  lemma DoomedInTimes(f: Fence, s: Disk, ids: seq<Oid>)
    ensures forall x :: x in Doomed(f, s, ids) <==> x in ids && x !in f.keep && x in s.loose && PastGrace(f, x)
    ensures forall x :: x in Young(f, s, ids) <==> x in ids && x !in f.keep && x in s.loose && !PastGrace(f, x)
  {
    hide Age, PastGrace;
    forall x ensures Age(f, x) >= f.grace <==> PastGrace(f, x) { AgeIsPast(f, x); }
  }

  lemma NothingYet(f: Fence, s: Disk, candidates: seq<Oid>)
    ensures Doomed(f, s, candidates[..0]) == {} && Young(f, s, candidates[..0]) == {} && Freed(f, s, candidates[..0]) == 0
    ensures Swept(s, {}) == s
  {}

  lemma OneMore(f: Fence, s: Disk, candidates: seq<Oid>, i: nat)
    requires NoRepeats(candidates) && i < |candidates|
    ensures var id, before, after := candidates[i], candidates[..i], candidates[..i + 1];
      && id !in Doomed(f, s, before) && id !in Young(f, s, before)
      && Doomed(f, s, after) == Doomed(f, s, before) + (if Sweepable(f, s, id) then {id} else {})
      && Young(f, s, after) == Young(f, s, before) + (if id !in f.keep && id in s.loose && Age(f, id) < f.grace then {id} else {})
      && Freed(f, s, after) == Freed(f, s, before) + (if Sweepable(f, s, id) then FileLen(s.loose[id]) else 0)
  {
    hide Age;
    assert candidates[..i + 1] == candidates[..i] + [candidates[i]];
    assert candidates[..i + 1][..i] == candidates[..i];
  }

  /** What is kept, with every base it rests on, reads through the same files. */
  lemma {:induction false} KeptReads(env: Env, s: Disk, keep: set<Oid>, dead: set<Oid>, x: Oid, l: nat)
    requires BaseClosed(s, keep) && dead !! keep && x in keep
    ensures Read(env, Swept(s, dead), x, l) == Read(env, s, x, l)
    decreases l
  {
    hide Delta.ApplyDelta, Inflate;
    if x in s.loose && s.loose[x].DeltaFile? && l > 0 {
      assert BaseOf(s, x) == Some(s.loose[x].base);
      KeptReads(env, s, keep, dead, s.loose[x].base, l - 1);
    }
  }

  ghost predicate Marked(env: Env, s: Disk, index: map<ObjectGraph.Sha, Oid>, decode: Decoder, roots: seq<Oid>, x: Oid) {
    Fetch.OidReaches(View(env, s, index, decode), roots, x)
  }

  /** `x` is reachable from a root, or a delta chain of something reachable rests on it. */
  ghost predicate Needed(env: Env, s: Disk, index: map<ObjectGraph.Sha, Oid>, decode: Decoder, roots: seq<Oid>, x: Oid) {
    exists y :: Marked(env, s, index, decode, roots, y) && Reach(BaseEdges(s), [y], {}, x)
  }

  lemma FromOne(next: Edges, roots: seq<Oid>, x: Oid)
    ensures Reach(next, roots, {}, x) <==> exists y :: y in roots && Reach(next, [y], {}, x)
  {
    if Reach(next, roots, {}, x) {
      var p :| IsPath(next, {}, p) && p[0] in roots && p[|p| - 1] == x;
      assert p[0] in roots && p[0] in [p[0]] && Reach(next, [p[0]], {}, x);
    }
    if y :| y in roots && Reach(next, [y], {}, x) {
      var p :| IsPath(next, {}, p) && p[0] in [y] && p[|p| - 1] == x;
      assert p[0] in roots;
    }
  }

  lemma KeepIsNeeded(env: Env, s: Disk, index: map<ObjectGraph.Sha, Oid>, decode: Decoder, roots: seq<Oid>,
                     marked: set<Oid>, order: seq<Oid>, keep: set<Oid>)
    requires forall x :: x in marked <==> Marked(env, s, index, decode, roots, x)
    requires Elements(order) == marked && forall x :: x in keep <==> Reach(BaseEdges(s), order, {}, x)
    ensures forall x :: x in keep <==> Needed(env, s, index, decode, roots, x)
  {
    hide Reach, Marked, BaseEdges;
    forall x ensures x in keep <==> Needed(env, s, index, decode, roots, x) {
      FromOne(BaseEdges(s), order, x);
      assert forall y :: y in order <==> y in Elements(order);
    }
  }

  /** One pass over frozen candidates. However far the sweep gets, all that is reachable
      from the collected roots reads as before, and the files that go are exactly those
      of unneeded candidates past their grace. */
  method Collect(store: ObjectStore, index: map<ObjectGraph.Sha, Oid>, decode: Decoder, candidates: seq<Oid>,
                 roots: seq<Oid>, mtime: map<Oid, nat>, now: nat, grace: nat, stop: nat)
      returns (stats: Stats, f: Fence)
    requires NoRepeats(candidates) && stop <= |candidates|
    modifies store
    ensures forall x :: Marked(store.env, old(store.Contents()), index, decode, roots, x) ==>
      ReadObject(store.env, store.Contents(), x) == ReadObject(store.env, old(store.Contents()), x)
    ensures store.packs == old(store.packs) && store.loose == old(store.loose) - Doomed(f, old(store.Contents()), candidates[..stop])
    ensures f.mtime == mtime && f.now == now && f.grace == grace
    ensures forall x :: x in f.keep <==> Needed(store.env, old(store.Contents()), index, decode, roots, x)
    ensures forall x :: x in old(store.loose) ==>
      (x !in store.loose <==>
        && x in candidates[..stop] && !Needed(store.env, old(store.Contents()), index, decode, roots, x)
        && (grace == 0 || (x in mtime && mtime[x] + grace <= now)))
  {
    hide Needed, Reach, View, Read, Fetch.OidReaches, Fetch.OidLinks, Age, BaseEdges;
    ghost var s := store.Contents();
    var marked := Fetch.ReachableFrom(View(store.env, store.Contents(), index, decode), roots);
    var order := ListSet(marked);
    var keep := CloseUnderBases(store.Contents(), marked, order);
    KeepIsNeeded(store.env, s, index, decode, roots, marked, order, keep);
    f := Fence(keep, mtime, now, grace);
    stats := Sweep(store, candidates, f, stop);
    forall x | x in keep ensures ReadObject(store.env, store.Contents(), x) == ReadObject(store.env, s, x) {
      KeptReads(store.env, s, keep, Doomed(f, s, candidates[..stop]), x, MAX_CHAIN);
    }
  }
}
