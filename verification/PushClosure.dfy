/**
 What the connectivity check guarantees. From a store in which everything a held
 object names is held, a push keeps that exactly when the connectivity check passes
 and no object takes the place of one of another kind; a rejected push does not.
 */
module PushClosure {
  import opened Bytes
  import opened Options
  import opened GraphWalk
  import opened Push

  ghost predicate Closed(git: Git, st: Store) {
    forall id, s :: At(st, id).Some? && s in git.names(At(st, id).value) ==> s in HeldShas(git, st)
  }

  // ----- what storing a pack holds on to -------------------------------------------------------------

  /** The last object of the packfile with this content, or else the one the store had. */
  function Last(git: Git, st: Store, pack: seq<GitObject>, content: seq<byte>): Option<GitObject> {
    if pack == [] then At(st, git.hash(content))
    else if pack[|pack| - 1].content == content then Some(pack[|pack| - 1])
    else Last(git, st, pack[..|pack| - 1], content)
  }

  /** Sent with the push, or in the store before, shadowed or not. */
  predicate Known(git: Git, st: Store, pack: seq<GitObject>, o: GitObject) {
    || o in pack
    || (git.hash(o.content) in st.loose && st.loose[git.hash(o.content)] == o)
    || (git.hash(o.content) in st.packed && st.packed[git.hash(o.content)] == o)
  }

  /** An object of the same content but another kind is read in its place. */
  predicate Retyped(git: Git, st: Store, pack: seq<GitObject>, o: GitObject) {
    Known(git, st, pack, o) && Last(git, st, pack, o.content) != Some(o)
  }

  lemma {:induction false} LastIsStored(git: Git, st: Store, pack: seq<GitObject>, content: seq<byte>)
    requires GitOk(git)
    ensures Last(git, st, pack, content) == At(Stored(git, st, pack), git.hash(content))
  {
    if pack != [] { LastIsStored(git, st, pack[..|pack| - 1], content); }
  }

  lemma {:induction false} LastIsKnown(git: Git, st: Store, pack: seq<GitObject>, content: seq<byte>)
    requires GitOk(git) && Addressed(git, st)
    ensures Last(git, st, pack, content).Some? ==>
      Known(git, st, pack, Last(git, st, pack, content).value) && Last(git, st, pack, content).value.content == content
  {
    if pack != [] { LastIsKnown(git, st, pack[..|pack| - 1], content); }
  }

  lemma {:induction false} KnownHasLast(git: Git, st: Store, pack: seq<GitObject>, o: GitObject)
    requires GitOk(git) && Known(git, st, pack, o)
    ensures Last(git, st, pack, o.content).Some?
  {
    if pack != [] && pack[|pack| - 1].content != o.content {
      KnownHasLast(git, st, pack[..|pack| - 1], o);
    }
  }

  lemma HeldHere(git: Git, st: Store, o: GitObject)
    requires GitOk(git) && Addressed(git, st)
    ensures git.sha(o) in HeldShas(git, st) <==> At(st, git.hash(o.content)) == Some(o)
  {
    var id := git.hash(o.content);
    if At(st, id) == Some(o) { assert id in Ids(st); }
    if git.sha(o) in HeldShas(git, st) {
      var k :| k in Ids(st) && git.sha(At(st, k).value) == git.sha(o);
      assert k == id;
    }
  }

  /** Held afterwards: exactly the known objects that were not retyped. */
  lemma HeldIffNotRetyped(git: Git, st: Store, pack: seq<GitObject>, o: GitObject)
    requires GitOk(git) && Addressed(git, st)
    ensures git.sha(o) in HeldShas(git, Stored(git, st, pack)) <==> Known(git, st, pack, o) && !Retyped(git, st, pack, o)
  {
    hide Stored, Last, Known, HeldShas, GitOk, Addressed;
    StoredStaysAddressed(git, st, pack);
    HeldHere(git, Stored(git, st, pack), o);
    LastIsStored(git, st, pack, o.content);
    LastIsKnown(git, st, pack, o.content);
  }

  lemma {:induction false} NamedIs(git: Git, pack: seq<GitObject>)
    ensures forall s :: s in Named(git, pack) <==> exists o :: o in pack && s in git.names(o)
  {
    if pack != [] {
      NamedIs(git, pack[..|pack| - 1]);
      assert forall o :: o in pack <==> o in pack[..|pack| - 1] || o == pack[|pack| - 1];
    }
  }

  /** An object that survives the push names one that does not. */
  ghost predicate LosesNamed(git: Git, st: Store, pack: seq<GitObject>) {
    exists o, k :: Known(git, st, pack, o) && !Retyped(git, st, pack, o)
      && Retyped(git, st, pack, k) && git.sha(k) in git.names(o)
  }

  lemma {:induction false} StoredIsKnown(git: Git, st: Store, pack: seq<GitObject>, id: Oid)
    requires Addressed(git, st) && id in Stored(git, st, pack).loose
    ensures Known(git, st, pack, Stored(git, st, pack).loose[id])
  {
    if pack != [] && id != git.hash(pack[|pack| - 1].content) { StoredIsKnown(git, st, pack[..|pack| - 1], id); }
  }

  /** Whatever the check finds, in the packfile or in the index, is known. */
  lemma ListedIsKnown(git: Git, st: Store, pack: seq<GitObject>, s: Sha) returns (k: GitObject)
    requires GitOk(git) && Addressed(git, st)
    requires s in PackShas(git, pack) || s in IndexShas(git, Stored(git, st, pack))
    ensures Known(git, st, pack, k) && git.sha(k) == s
  {
    hide Stored, PackShas;
    PackShasAre(git, st, pack);
    StoredStaysAddressed(git, st, pack);
    var after := Stored(git, st, pack);
    if s in PackShas(git, pack) {
      k :| k in pack && git.sha(k) == s;
    } else if s in ShasOf(git, after.loose) {
      var id :| id in after.loose && git.sha(after.loose[id]) == s;
      k := after.loose[id];
      StoredIsKnown(git, st, pack, id);
    } else {
      var id :| id in after.packed && git.sha(after.packed[id]) == s;
      k := after.packed[id];
    }
  }

  /** With that check passed, everything a survivor names is known. */
  lemma NamesAreKnown(git: Git, st: Store, pack: seq<GitObject>, o: GitObject, s: Sha) returns (k: GitObject)
    requires GitOk(git) && Addressed(git, st) && Closed(git, st) && Missing(git, st, pack).None?
    requires Known(git, st, pack, o) && !Retyped(git, st, pack, o) && s in git.names(o)
    ensures Known(git, st, pack, k) && git.sha(k) == s
  {
    hide Stored, PackShas, Named, GitOk, IndexShas, HeldShas;
    NamedIs(git, pack);
    if o in pack {
      assert s in Named(git, pack);
      k := ListedIsKnown(git, st, pack, s);
    } else {
      LastOutside(git, st, pack, o);
      assert s in HeldShas(git, st);
      k := HeldIsKnown(git, st, pack, s);
    }
  }

  /** An object not sent that is still read was read before. */
  lemma {:induction false} LastOutside(git: Git, st: Store, pack: seq<GitObject>, o: GitObject)
    requires o !in pack && Last(git, st, pack, o.content) == Some(o)
    ensures At(st, git.hash(o.content)) == Some(o)
  {
    if pack != [] {
      assert pack[|pack| - 1] in pack;
      LastOutside(git, st, pack[..|pack| - 1], o);
    }
  }

  lemma HeldIsKnown(git: Git, st: Store, pack: seq<GitObject>, s: Sha) returns (k: GitObject)
    requires Addressed(git, st) && s in HeldShas(git, st)
    ensures Known(git, st, pack, k) && git.sha(k) == s
  {
    var id :| id in Ids(st) && git.sha(At(st, id).value) == s;
    k := At(st, id).value;
  }

  /** A push that passes the connectivity check keeps the closure exactly when no surviving
      object names one that is read as another kind. */
  lemma ClosureKeptIff(git: Git, st: Store, pack: seq<GitObject>)
    requires GitOk(git) && Addressed(git, st) && Closed(git, st) && Missing(git, st, pack).None?
    ensures Closed(git, Stored(git, st, pack)) <==> !LosesNamed(git, st, pack)
  {
    hide Stored, PackShas, Named, Last, Known, Retyped, GitOk, Missing, HeldShas;
    var after := Stored(git, st, pack);
    StoredStaysAddressed(git, st, pack);
    if !LosesNamed(git, st, pack) {
      forall id, s | At(after, id).Some? && s in git.names(At(after, id).value) ensures s in HeldShas(git, after) {
        var o := At(after, id).value;
        SurvivorIsHeld(git, after, id);
        HeldIffNotRetyped(git, st, pack, o);
        var k := NamesAreKnown(git, st, pack, o, s);
        HeldIffNotRetyped(git, st, pack, k);
      }
    } else {
      var o, k :| Known(git, st, pack, o) && !Retyped(git, st, pack, o)
        && Retyped(git, st, pack, k) && git.sha(k) in git.names(o);
      HeldIffNotRetyped(git, st, pack, o);
      HeldIffNotRetyped(git, st, pack, k);
      HeldHere(git, after, o);
      assert At(after, git.hash(o.content)).Some? && git.sha(k) !in HeldShas(git, after);
    }
  }

  lemma SurvivorIsHeld(git: Git, st: Store, id: Oid)
    requires At(st, id).Some?
    ensures git.sha(At(st, id).value) in HeldShas(git, st)
  {
    assert id in Ids(st);
  }

  /** Nothing shadows an object of another kind. */
  predicate Unshadowed(st: Store) {
    forall id :: id in st.loose && id in st.packed ==> st.loose[id] == st.packed[id]
  }

  /** No pushed object has the content of one of another kind. */
  predicate KeepsKinds(git: Git, st: Store, pack: seq<GitObject>) {
    && (forall o :: o in pack && At(st, git.hash(o.content)).Some? ==> At(st, git.hash(o.content)).value == o)
    && (forall i, j :: 0 <= i < |pack| && 0 <= j < |pack| && pack[i].content == pack[j].content ==> pack[i] == pack[j])
  }

  lemma KindsKept(git: Git, st: Store, pack: seq<GitObject>, o: GitObject)
    requires GitOk(git) && Addressed(git, st) && Unshadowed(st) && KeepsKinds(git, st, pack)
    ensures !Retyped(git, st, pack, o)
  {
    hide Last, GitOk;
    if Known(git, st, pack, o) {
      KnownHasLast(git, st, pack, o);
      LastIsKnown(git, st, pack, o.content);
    }
  }

  /** Where kinds are kept, the connectivity check passes exactly for the pushes that keep the closure. */
  lemma ClosureKeptIffNoneMissing(git: Git, st: Store, pack: seq<GitObject>)
    requires GitOk(git) && Addressed(git, st) && Closed(git, st) && Unshadowed(st) && KeepsKinds(git, st, pack)
    ensures Closed(git, Stored(git, st, pack)) <==> Missing(git, st, pack).None?
  {
    hide Stored, PackShas, Named, Last, GitOk, HeldShas, KeepsKinds, Retyped, IndexShas, At;
    if Missing(git, st, pack).None? {
      ClosureKeptIff(git, st, pack);
      forall k ensures !Retyped(git, st, pack, k) { KindsKept(git, st, pack, k); }
    } else {
      var s := Missing(git, st, pack).value;
      NamedIs(git, pack);
      var o :| o in pack && s in git.names(o);
      KindsKept(git, st, pack, o);
      HeldIffNotRetyped(git, st, pack, o);
      StoredStaysAddressed(git, st, pack);
      HeldHere(git, Stored(git, st, pack), o);
      HeldIsListed(git, Stored(git, st, pack));
    }
  }

  lemma HeldIsListed(git: Git, st: Store)
    ensures HeldShas(git, st) <= IndexShas(git, st)
  {}

  /** The empty blob and the empty tree have the same content. Sending the blob takes the
      tree's place, and commits of the empty tree are no longer complete. */
  lemma EmptyBlobTakesEmptyTree(git: Git, commit: GitObject) returns (st: Store, pack: seq<GitObject>)
    requires GitOk(git) && commit.content != [] && git.names(commit) == [git.sha(GitObject(2, []))]
    requires git.names(GitObject(2, [])) == [] && git.names(GitObject(3, [])) == []
    ensures Addressed(git, st) && Closed(git, st) && Unshadowed(st) && Missing(git, st, pack).None?
    ensures !Closed(git, Stored(git, st, pack))
  {
    var tree, blob := GitObject(2, []), GitObject(3, []);
    st, pack := Store(map[git.hash(commit.content) := commit, git.hash([]) := tree], map[]), [blob];
    HeldHere(git, st, tree);
    assert pack[..0] == [];
    assert Named(git, pack) == [] by { assert Named(git, []) == []; }
    var after := Stored(git, st, pack);
    assert after.loose == st.loose[git.hash([]) := blob] by { assert Stored(git, st, []) == st; }
    assert At(after, git.hash(commit.content)) == Some(commit);
    StoredStaysAddressed(git, st, pack);
    HeldHere(git, after, tree);
  }

  // ----- runs of pushes --------------------------------------------------------------------------------

  datatype State = State(store: Store, refs: Refs)

  datatype Received = Received(commands: seq<Command>, pack: seq<GitObject>, segment: string, table: map<Sha, Oid>)

  ghost predicate IsRun(git: Git, st: State, pushes: seq<Received>)
    decreases |pushes|
  {
    pushes != [] ==>
      && Resolver(git, st.store, pushes[0].pack, pushes[0].table)
      && IsRun(git, Next(git, st, pushes[0]), pushes[1..])
  }

  function Next(git: Git, st: State, p: Received): State {
    State(Stored(git, st.store, p.pack),
          ExecuteAll(st.refs, p.table, Missing(git, st.store, p.pack), p.segment, p.commands).0)
  }

  function After(git: Git, st: State, pushes: seq<Received>): State
    decreases |pushes|
  {
    if pushes == [] then st else After(git, Next(git, st, pushes[0]), pushes[1..])
  }

  /** Every push of the run passed that check and kept kinds. */
  ghost predicate AllPass(git: Git, st: State, pushes: seq<Received>)
    decreases |pushes|
  {
    pushes != [] ==>
      && Missing(git, st.store, pushes[0].pack).None? && KeepsKinds(git, st.store, pushes[0].pack)
      && AllPass(git, Next(git, st, pushes[0]), pushes[1..])
  }

  ghost predicate RefsHeld(st: State) {
    forall name :: name in st.refs ==> st.refs[name] in Ids(st.store)
  }

  ghost predicate Sound(git: Git, st: State) {
    Addressed(git, st.store) && Unshadowed(st.store) && Closed(git, st.store) && RefsHeld(st)
  }

  lemma {:induction false} StoredKeepsIds(git: Git, st: Store, pack: seq<GitObject>)
    ensures Ids(st) <= Ids(Stored(git, st, pack))
  {
    if pack != [] { StoredKeepsIds(git, st, pack[..|pack| - 1]); }
  }

  lemma StoredStaysUnshadowed(git: Git, st: Store, pack: seq<GitObject>)
    requires GitOk(git) && Addressed(git, st) && Unshadowed(st) && KeepsKinds(git, st, pack)
    ensures Unshadowed(Stored(git, st, pack))
  {
    hide Stored, Last, KeepsKinds, GitOk;
    var after := Stored(git, st, pack);
    StoredStaysAddressed(git, st, pack);
    forall id | id in after.loose && id in after.packed ensures after.loose[id] == after.packed[id] {
      var o := after.packed[id];
      KindsKept(git, st, pack, o);
      assert Known(git, st, pack, o);
      LastIsStored(git, st, pack, o.content);
    }
  }

  lemma {:induction false} CommandsNameHeld(refs: Refs, table: map<Sha, Oid>, missing: Option<Sha>, segment: string,
                                            cs: seq<Command>, ids: set<Oid>)
    requires forall name :: name in refs ==> refs[name] in ids
    requires forall s :: s in table ==> table[s] in ids
    ensures forall name :: name in ExecuteAll(refs, table, missing, segment, cs).0 ==>
      ExecuteAll(refs, table, missing, segment, cs).0[name] in ids
  {
    hide ValidName, StoredName;
    if cs != [] { CommandsNameHeld(refs, table, missing, segment, cs[..|cs| - 1], ids); }
  }

  lemma RefsStayHeld(git: Git, st: State, p: Received)
    requires RefsHeld(st) && Resolver(git, st.store, p.pack, p.table)
    ensures RefsHeld(Next(git, st, p))
  {
    hide Stored, ExecuteAll, Missing, PackShas, IndexShas, Ids;
    StoredKeepsIds(git, st.store, p.pack);
    CommandsNameHeld(st.refs, p.table, Missing(git, st.store, p.pack), p.segment, p.commands, Ids(Stored(git, st.store, p.pack)));
  }

  lemma {:induction false} PassingRunsStaySound(git: Git, st: State, pushes: seq<Received>)
    requires GitOk(git) && Sound(git, st) && IsRun(git, st, pushes) && AllPass(git, st, pushes)
    ensures Sound(git, After(git, st, pushes))
    decreases |pushes|
  {
    hide GitOk, Closed, Addressed, Unshadowed, RefsHeld, Missing, KeepsKinds, Resolver, Stored, ExecuteAll;
    if pushes != [] {
      var p := pushes[0];
      StoredStaysAddressed(git, st.store, p.pack);
      StoredStaysUnshadowed(git, st.store, p.pack);
      ClosureKeptIffNoneMissing(git, st.store, p.pack);
      RefsStayHeld(git, st, p);
      PassingRunsStaySound(git, Next(git, st, p), pushes[1..]);
    }
  }

  ghost function NamesOf(git: Git, st: Store, s: Sha): seq<Sha> {
    if s in HeldShas(git, st) then
      var id :| id in Ids(st) && git.sha(At(st, id).value) == s;
      git.names(At(st, id).value)
    else []
  }

  ghost function Graph(git: Git, st: Store): Edges { s => NamesOf(git, st, s) }

  /** A clone of the ref would need the object `x`. */
  ghost predicate Needs(git: Git, st: State, name: RefName, x: Sha) {
    name in st.refs && st.refs[name] in Ids(st.store) &&
    Reach(Graph(git, st.store), [git.sha(At(st.store, st.refs[name]).value)], {}, x)
  }

  /** Over any run of pushes that pass, every ref names a graph that is held to the last object. */
  lemma RefsNameWholeGraphs(git: Git, st: State, pushes: seq<Received>, name: RefName, x: Sha)
    requires GitOk(git) && Sound(git, st) && IsRun(git, st, pushes) && AllPass(git, st, pushes)
    requires Needs(git, After(git, st, pushes), name, x)
    ensures x in HeldShas(git, After(git, st, pushes).store)
  {
    hide GitOk, IsRun, AllPass, After, Reach;
    PassingRunsStaySound(git, st, pushes);
    var end := After(git, st, pushes);
    var top := [git.sha(At(end.store, end.refs[name]).value)];
    forall v, c | v in HeldShas(git, end.store) && c in Graph(git, end.store)(v) ensures c in HeldShas(git, end.store) {}
    ClosedHoldsReach(Graph(git, end.store), top, {}, HeldShas(git, end.store), x);
  }

  /** A rejected push leaves its objects behind, and a later push may point a ref at them:
      the connectivity check passes, and the ref names a graph that is not held. */
  lemma RejectedPushPoisons(git: Git, commit: GitObject, tree: Sha) returns (pushes: seq<Received>)
    requires GitOk(git) && git.names(commit) == [tree] && tree != git.sha(commit)
    ensures var st := State(Store(map[], map[]), map[]);
      && Sound(git, st) && IsRun(git, st, pushes) && |pushes| == 2
      && Missing(git, st.store, pushes[0].pack) == Some(tree)
      && Missing(git, Next(git, st, pushes[0]).store, pushes[1].pack).None?
      && Needs(git, After(git, st, pushes), MAIN, tree)
      && tree !in HeldShas(git, After(git, st, pushes).store)
  {
    var id, sha := git.hash(commit.content), git.sha(commit);
    var table := map[sha := id];
    var first, second := Received([], [commit], "", table), Received([Command(MAIN, NULL, sha)], [], "", table);
    pushes := [first, second];
    var st := State(Store(map[], map[]), map[]);
    RejectsIt(git, commit, tree, table);
    var st1 := Next(git, st, first);
    AcceptsIt(git, commit, table);
    hide Next, Resolver, IsRun, After, GitOk;
    TwoPushes(git, st, first, second);
    PointsThere(git, commit, tree);
  }

  lemma TwoPushes(git: Git, st: State, first: Received, second: Received)
    requires Resolver(git, st.store, first.pack, first.table)
    requires Resolver(git, Next(git, st, first).store, second.pack, second.table)
    ensures IsRun(git, st, [first, second]) && After(git, st, [first, second]) == Next(git, Next(git, st, first), second)
  {
    hide Next, Resolver;
    var st2 := Next(git, Next(git, st, first), second);
    assert [first, second][1..] == [second] && [second][1..] == [];
    assert IsRun(git, st2, []) && After(git, st2, []) == st2;
  }

  const MAIN: RefName := "refs/heads/main"

  lemma MainIsValid()
    ensures ValidName(StoredName(MAIN, ""))
  {
    hide ValidName;
    assert !Contains(MAIN, "..") by { NoDouble(MAIN, '.'); }
    assert !Contains(MAIN, "//") by { NoDouble(MAIN, '/'); }
    Spelled();
  }

  lemma NoDouble(s: string, c: char)
    requires forall i :: 0 <= i < |s| - 1 ==> !(s[i] == c && s[i + 1] == c)
    ensures !Contains(s, [c, c])
  {
    forall i | 0 <= i <= |s| ensures !([c, c] <= s[i..]) {
      if i + 2 <= |s| { assert s[i..][0] == s[i] && s[i..][1] == s[i + 1]; }
    }
  }

  lemma Spelled()
    requires !Contains(MAIN, "..") && !Contains(MAIN, "//")
    ensures ValidName(MAIN)
  {}

  lemma RejectsIt(git: Git, commit: GitObject, tree: Sha, table: map<Sha, Oid>)
    requires GitOk(git) && git.names(commit) == [tree] && tree != git.sha(commit)
    requires table == map[git.sha(commit) := git.hash(commit.content)]
    ensures var empty := Store(map[], map[]);
      && Resolver(git, empty, [commit], table) && Missing(git, empty, [commit]) == Some(tree)
      && Next(git, State(empty, map[]), Received([], [commit], "", table)) ==
         State(Store(map[git.hash(commit.content) := commit], map[]), map[])
  {
    var pack, empty := [commit], Store(map[], map[]);
    assert pack[..0] == [];
    assert Stored(git, empty, pack) == Store(map[git.hash(commit.content) := commit], map[]) by {
      assert Stored(git, empty, []) == empty;
    }
    assert PackShas(git, pack) == table by { assert PackShas(git, []) == map[]; }
    assert Named(git, pack) == [tree] by { assert Named(git, []) == []; }
    OneListed(git, commit);
  }

  lemma OneListed(git: Git, commit: GitObject)
    ensures var st := Store(map[git.hash(commit.content) := commit], map[]);
      IndexShas(git, st) == HeldShas(git, st) == {git.sha(commit)} && Ids(st) == {git.hash(commit.content)}
  {
    var st := Store(map[git.hash(commit.content) := commit], map[]);
    assert git.hash(commit.content) in st.loose && git.hash(commit.content) in Ids(st);
  }

  lemma AcceptsIt(git: Git, commit: GitObject, table: map<Sha, Oid>)
    requires GitOk(git) && table == map[git.sha(commit) := git.hash(commit.content)]
    ensures var st := Store(map[git.hash(commit.content) := commit], map[]);
      && Resolver(git, st, [], table) && Missing(git, st, []).None?
      && Next(git, State(st, map[]), Received([Command(MAIN, NULL, git.sha(commit))], [], "", table)) ==
         State(st, map[MAIN := git.hash(commit.content)])
  {
    var st := Store(map[git.hash(commit.content) := commit], map[]);
    OneListed(git, commit);
    NothingStored(git, st);
    OneCreation(table, git.sha(commit));
    hide ExecuteAll;
  }

  /** Creating the main branch where there are no refs. */
  lemma OneCreation(table: map<Sha, Oid>, s: Sha)
    requires s in table && s != NULL
    ensures ExecuteAll(map[], table, None, "", [Command(MAIN, NULL, s)]) == (map[MAIN := table[s]], [Accepted])
  {
    hide ValidName;
    MainIsValid();
    var cs := [Command(MAIN, NULL, s)];
    assert cs[..0] == [] && cs[0] == Command(MAIN, NULL, s);
    assert ExecuteAll(map[], table, None, "", []) == (map[], []);
    assert Execute(map[], table, None, "", cs[0]) == (map[MAIN := table[s]], Accepted);
    assert [] + [Accepted] == [Accepted];
  }

  lemma PointsThere(git: Git, commit: GitObject, tree: Sha)
    requires GitOk(git) && git.names(commit) == [tree] && tree != git.sha(commit)
    ensures var st := State(Store(map[git.hash(commit.content) := commit], map[]), map[MAIN := git.hash(commit.content)]);
      Needs(git, st, MAIN, tree) && tree !in HeldShas(git, st.store)
  {
    hide Reach;
    var st := State(Store(map[git.hash(commit.content) := commit], map[]), map[MAIN := git.hash(commit.content)]);
    var sha := git.sha(commit);
    OneListed(git, commit);
    assert Graph(git, st.store)(sha) == [tree];
    ReachRoot(Graph(git, st.store), [sha], {}, sha);
    ReachStep(Graph(git, st.store), [sha], {}, sha, tree);
  }

  // ----- collected objects -----------------------------------------------------------------------------

  /** Removing a file keeps the closure exactly if no remaining object names what it held. */
  lemma CollectKeepsClosureIff(git: Git, st: Store, id: Oid)
    requires GitOk(git) && Addressed(git, st) && Unshadowed(st) && Closed(git, st) && id in st.loose && id !in st.packed
    ensures Closed(git, Collected(st, id)) <==>
      forall k :: k != id && At(st, k).Some? ==> git.sha(st.loose[id]) !in git.names(At(st, k).value)
  {
    var st', gone := Collected(st, id), st.loose[id];
    CollectedAt(st, id);
    CollectedShas(git, st, id);
    hide HeldShas, GitOk, Unshadowed, Collected, At;
    if forall k :: k != id && At(st, k).Some? ==> git.sha(gone) !in git.names(At(st, k).value) {
      forall k, s | At(st', k).Some? && s in git.names(At(st', k).value) ensures s in HeldShas(git, st') {
        assert At(st, k) == At(st', k);
      }
    } else {
      var k :| k != id && At(st, k).Some? && git.sha(gone) in git.names(At(st, k).value);
      assert At(st', k).Some? && git.sha(gone) !in HeldShas(git, st');
    }
  }

  lemma CollectedAt(st: Store, id: Oid)
    requires id in st.loose && id !in st.packed
    ensures Ids(Collected(st, id)) == Ids(st) - {id}
    ensures forall k :: At(Collected(st, id), k) == if k == id then None else At(st, k)
  {}

  lemma CollectedShas(git: Git, st: Store, id: Oid)
    requires GitOk(git) && Addressed(git, st) && id in st.loose && id !in st.packed
    ensures forall s :: s in HeldShas(git, Collected(st, id)) <==> s in HeldShas(git, st) && s != git.sha(st.loose[id])
  {
    CollectedAt(st, id);
    var st', gone := Collected(st, id), st.loose[id];
    assert forall k :: k in Ids(st) ==> At(st, k).Some?;
    assert At(st, id).value == gone && id in Ids(st);
    hide GitOk, Addressed, Collected, Ids, At;
    forall s | s in HeldShas(git, st') ensures s in HeldShas(git, st) && s != git.sha(gone) {
      var k :| k in Ids(st') && git.sha(At(st', k).value) == s;
      assert At(st, k) == At(st', k);
      OneHolder(git, st, id, k);
    }
    forall s | s in HeldShas(git, st) && s != git.sha(gone) ensures s in HeldShas(git, st') {
      var k :| k in Ids(st) && git.sha(At(st, k).value) == s;
      assert k in Ids(st') && At(st', k) == At(st, k);
    }
  }

  /** An object is held under one id only. */
  lemma OneHolder(git: Git, st: Store, id: Oid, k: Oid)
    requires GitOk(git) && Addressed(git, st) && id in Ids(st) && k in Ids(st) && k != id
    ensures git.sha(At(st, k).value) != git.sha(At(st, id).value)
  {}

  /** The collector leaves the cached index as it is. A push that sends nothing is then resolved
      against it, and moves a ref to an object that is gone. */
  lemma StaleIndexNamesGone(git: Git, commit: GitObject)
    requires GitOk(git)
    ensures var id, sha := git.hash(commit.content), git.sha(commit);
      var st, index := Store(map[id := commit], map[]), map[sha := id];
      && Indexes(git, st, index) && !Indexes(git, Collected(st, id), index)
      && ExecuteAll(map[], index, None, "", [Command(MAIN, NULL, sha)]) == (map[MAIN := id], [Accepted])
      && id !in Ids(Collected(st, id))
  {
    var id, sha := git.hash(commit.content), git.sha(commit);
    OneListed(git, commit);
    OneCreation(map[sha := id], sha);
    hide ExecuteAll;
    assert IndexShas(git, Collected(Store(map[id := commit], map[]), id)) == {};
  }

  ghost predicate RefsIn(refs: Refs, ids: set<Oid>) { forall name :: name in refs ==> refs[name] in ids }

  /** Whatever commands are resolved by `index`, refs stay on stored objects. */
  ghost predicate LeadsToStored(index: map<Sha, Oid>, ids: set<Oid>) {
    forall refs, cs :: RefsIn(refs, ids) ==> RefsIn(ExecuteAll(refs, index, None, "", cs).0, ids)
  }

  /** That is so exactly if the index lists nothing that is gone. */
  lemma IndexIsSafeIff(index: map<Sha, Oid>, ids: set<Oid>)
    ensures LeadsToStored(index, ids) <==> forall s :: s in index && s != NULL ==> index[s] in ids
  {
    hide ExecuteAll;
    if forall s :: s in index && s != NULL ==> index[s] in ids {
      forall refs, cs | RefsIn(refs, ids) ensures RefsIn(ExecuteAll(refs, index, None, "", cs).0, ids) {
        CommandsStayHeld(refs, index, cs, ids);
      }
    } else {
      var s :| s in index && s != NULL && index[s] !in ids;
      OneCreation(index, s);
      var cs := [Command(MAIN, NULL, s)];
      assert RefsIn(map[], ids) && ExecuteAll(map[], index, None, "", cs).0[MAIN] !in ids;
      assert !RefsIn(ExecuteAll(map[], index, None, "", cs).0, ids);
    }
  }

  lemma {:induction false} CommandsStayHeld(refs: Refs, table: map<Sha, Oid>, cs: seq<Command>, ids: set<Oid>)
    requires forall name :: name in refs ==> refs[name] in ids
    requires forall s :: s in table && s != NULL ==> table[s] in ids
    ensures forall name :: name in ExecuteAll(refs, table, None, "", cs).0 ==> ExecuteAll(refs, table, None, "", cs).0[name] in ids
  {
    hide ValidName, StoredName;
    if cs != [] { CommandsStayHeld(refs, table, cs[..|cs| - 1], ids); }
  }
}
