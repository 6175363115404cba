/**
 The git object graph as the store sees it: objects are addressed by content id,
 refer to one another by git id, and an index translates. The index may name an
 object that can no longer be read.
 */
module ObjectGraph {
  import opened Options
  import opened GraphWalk

  type Sha = Node
  type Oid = Node

  datatype Object =
    | Commit(tree: Option<Sha>, parents: seq<Sha>)
    | Tree(children: seq<Sha>)
    | Blob(size: nat)
    | Tag(target: Option<Sha>)

  datatype Repo = Repo(index: map<Sha, Oid>, objects: map<Oid, Object>)

  /** The index knows the id and the object reads. */
  predicate Held(repo: Repo, s: Sha) {
    s in repo.index && repo.index[s] in repo.objects
  }

  function Get(repo: Repo, s: Sha): Object
    requires Held(repo, s)
  {
    repo.objects[repo.index[s]]
  }

  predicate IsCommit(repo: Repo, s: Sha) { Held(repo, s) && Get(repo, s).Commit? }
  predicate IsTag(repo: Repo, s: Sha) { Held(repo, s) && Get(repo, s).Tag? }
  predicate IsBlob(repo: Repo, s: Sha) { Held(repo, s) && Get(repo, s).Blob? }

  function Listed(o: Option<Sha>): seq<Sha> {
    if o.Some? then [o.value] else []
  }

  /** The ids an object names, in the order the walks queue them. */
  function Names(o: Object): seq<Sha> {
    match o
    case Commit(tree, parents) => Listed(tree) + parents
    case Tree(children) => children
    case Blob(_) => []
    case Tag(target) => Listed(target)
  }

  function NamedBy(repo: Repo, s: Sha): seq<Sha> {
    if Held(repo, s) then Names(Get(repo, s)) else []
  }

  /** One object names another in one of its fields: a commit its tree and parents, a tree its
      entries, a tag its target. */
  predicate Refers(o: Object, y: Sha) {
    match o
    case Commit(tree, parents) => tree == Some(y) || y in parents
    case Tree(children) => y in children
    case Blob(_) => false
    case Tag(target) => target == Some(y)
  }

  /** Everything an object refers to. */
  function Kids(repo: Repo): Edges {
    s => NamedBy(repo, s)
  }

  function TreeChildren(repo: Repo, s: Sha): seq<Sha> {
    if Held(repo, s) && Get(repo, s).Tree? then Get(repo, s).children else []
  }

  /** Inside a snapshot: only trees are expanded. */
  function TreeKids(repo: Repo): Edges {
    s => TreeChildren(repo, s)
  }

  predicate Links(repo: Repo, s: Sha, y: Sha) { Held(repo, s) && Refers(Get(repo, s), y) }

  /** A way from object to object by what their fields name, clear of `avoid`. */
  ghost predicate IsTrail(repo: Repo, avoid: set<Sha>, p: seq<Sha>) {
    && p != [] && (forall i :: 0 <= i < |p| ==> p[i] !in avoid)
    && (forall i :: 0 < i < |p| ==> Links(repo, p[i - 1], p[i]))
  }

  ghost predicate Reaches(repo: Repo, roots: seq<Sha>, avoid: set<Sha>, x: Sha) {
    exists p :: IsTrail(repo, avoid, p) && p[0] in roots && p[|p| - 1] == x
  }

  lemma NamesRefer(o: Object, y: Sha)
    ensures y in Names(o) <==> Refers(o, y)
  {}

  lemma KidsAre(repo: Repo, s: Sha, y: Sha)
    ensures y in Kids(repo)(s) <==> Links(repo, s, y)
  {
    hide Names, Refers;
    if Held(repo, s) { NamesRefer(Get(repo, s), y); }
  }

  /** The walks follow exactly the fields. */
  lemma ReachIsReaches(repo: Repo, roots: seq<Sha>, avoid: set<Sha>, x: Sha)
    ensures Reach(Kids(repo), roots, avoid, x) <==> Reaches(repo, roots, avoid, x)
  {
    hide Kids, Links;
    forall s, y ensures y in Kids(repo)(s) <==> Links(repo, s, y) { KidsAre(repo, s, y); }
    if Reach(Kids(repo), roots, avoid, x) {
      var p :| IsPath(Kids(repo), avoid, p) && p[0] in roots && p[|p| - 1] == x;
      assert IsTrail(repo, avoid, p);
    }
    if Reaches(repo, roots, avoid, x) {
      var p :| IsTrail(repo, avoid, p) && p[0] in roots && p[|p| - 1] == x;
      assert IsPath(Kids(repo), avoid, p);
    }
  }

  /** Every id that can occur in a walk from `roots`. */
  ghost function Universe(repo: Repo, roots: seq<Sha>): set<Sha> {
    Elements(roots) + repo.index.Keys + (set k, c | k in repo.index.Keys && c in NamedBy(repo, k) :: c)
  }

  lemma UniverseBounds(repo: Repo, roots: seq<Sha>)
    ensures Elements(roots) <= Universe(repo, roots)
    ensures Bounds(Kids(repo), Universe(repo, roots)) && Bounds(TreeKids(repo), Universe(repo, roots))
  {
    forall v, c | v in Universe(repo, roots) && c in Kids(repo)(v) ensures c in Universe(repo, roots) {
      assert v in repo.index.Keys && c in NamedBy(repo, v);
    }
    forall v, c | v in Universe(repo, roots) && c in TreeKids(repo)(v) ensures c in Universe(repo, roots) {
      assert v in repo.index.Keys && c in NamedBy(repo, v);
    }
  }
}
