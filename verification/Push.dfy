/**
 Receiving a push: unpacked objects are stored first, a connectivity check then
 decides whether any ref may move, and each ref command is a compare-and-swap from
 the value the client last saw. Objects lie loose over packed ones, and the index of
 git ids is cached between writes.
 */
module Push {
  import opened Bytes
  import opened Options

  type Sha = nat
  type Oid = nat
  type RefName = string

  /** Git's all-zero id: "no such ref". */
  const NULL: Sha := 0

  datatype GitObject = GitObject(kind: nat, content: seq<byte>)

  /** The git id covers kind and content; the storage id covers content alone. `names` are
      the objects of this repository that an object refers to. */
  datatype Git = Git(sha: GitObject -> Sha, hash: seq<byte> -> Oid, names: GitObject -> seq<Sha>)

  ghost predicate GitOk(git: Git) {
    && (forall a, b :: git.sha(a) == git.sha(b) ==> a == b)
    && (forall o :: git.sha(o) != NULL)
    && (forall a, b :: git.hash(a) == git.hash(b) ==> a == b)
  }

  type Objects = map<Oid, GitObject>
  type Refs = map<RefName, Oid>

  /** A loose file shadows a packed object of the same content, kind included. */
  datatype Store = Store(loose: Objects, packed: Objects)

  function At(st: Store, id: Oid): Option<GitObject> {
    if id in st.loose then Some(st.loose[id]) else if id in st.packed then Some(st.packed[id]) else None
  }

  function Ids(st: Store): set<Oid> { st.loose.Keys + st.packed.Keys }

  /** Everything is stored under the hash of its content. */
  ghost predicate Addressed(git: Git, st: Store) {
    && (forall id :: id in st.loose ==> git.hash(st.loose[id].content) == id)
    && (forall id :: id in st.packed ==> git.hash(st.packed[id].content) == id)
  }

  /** The git ids of the objects that read back. */
  function HeldShas(git: Git, st: Store): set<Sha> {
    set id | id in Ids(st) :: git.sha(At(st, id).value)
  }

  function ShasOf(git: Git, objects: Objects): set<Sha> {
    set id | id in objects :: git.sha(objects[id])
  }

  /** The git ids the index lists: of loose files and of packed objects, shadowed or not. */
  function IndexShas(git: Git, st: Store): set<Sha> {
    ShasOf(git, st.loose) + ShasOf(git, st.packed)
  }

  function Stored(git: Git, st: Store, pack: seq<GitObject>): Store {
    if pack == [] then st
    else
      var o, before := pack[|pack| - 1], Stored(git, st, pack[..|pack| - 1]);
      before.(loose := before.loose[git.hash(o.content) := o])
  }

  function Named(git: Git, pack: seq<GitObject>): seq<Sha> {
    if pack == [] then [] else Named(git, pack[..|pack| - 1]) + git.names(pack[|pack| - 1])
  }

  function PackShas(git: Git, pack: seq<GitObject>): map<Sha, Oid> {
    if pack == [] then map[]
    else PackShas(git, pack[..|pack| - 1])[git.sha(pack[|pack| - 1]) := git.hash(pack[|pack| - 1].content)]
  }

  /** The first sha of the list that `have` lacks. */
  function FirstOutside(shas: seq<Sha>, have: set<Sha>): (r: Option<Sha>)
    ensures r.Some? ==> r.value in shas && r.value !in have
    ensures r.None? ==> forall s :: s in shas ==> s in have
  {
    if shas == [] then None else if shas[0] !in have then Some(shas[0]) else FirstOutside(shas[1..], have)
  }

  /** What the connectivity check reports once the packfile is stored. */
  function Missing(git: Git, st: Store, pack: seq<GitObject>): Option<Sha> {
    FirstOutside(Named(git, pack), PackShas(git, pack).Keys + IndexShas(git, Stored(git, st, pack)))
  }

  // ----- ref names ----------------------------------------------------------------------------------------

  predicate Contains(s: string, part: string) {
    exists i :: 0 <= i <= |s| && part <= s[i..]
  }

  predicate ValidName(s: string) {
    && "refs/" <= s && !Contains(s, "..") && !Contains(s, "//")
    && forall c :: c in s ==> ' ' <= c && c != '\U{7f}'
  }

  /** Where a client's ref is kept: below the segment of its workspace, if it has one. */
  function StoredName(client: RefName, segment: string): RefName {
    if segment != "" && "refs/" <= client then "refs/" + segment + client[5..] else client
  }

  // ----- ref commands --------------------------------------------------------------------------------

  datatype Command = Command(name: RefName, before: Sha, after: Sha)

  datatype Outcome =
    Accepted | MissingObject(sha: Sha) | BadName | NullDelete | UnknownNew | UnknownOld | Conflict | NoSuchRef

  function Current(refs: Refs, name: RefName): Option<Oid> {
    if name in refs then Some(refs[name]) else None
  }

  /** The ref store's compare-and-swap. */
  function Update(refs: Refs, name: RefName, target: Oid, expected: Option<Oid>): (Refs, Outcome) {
    if Current(refs, name) == expected then (refs[name := target], Accepted)
    else (refs, if name in refs then Conflict else NoSuchRef)
  }

  function Delete(refs: Refs, name: RefName, expected: Oid): (Refs, Outcome) {
    if Current(refs, name) == Some(expected) then (refs - {name}, Accepted)
    else (refs, if name in refs then Conflict else NoSuchRef)
  }

  function Execute(refs: Refs, table: map<Sha, Oid>, missing: Option<Sha>, segment: string, c: Command): (Refs, Outcome) {
    var name := StoredName(c.name, segment);
    if missing.Some? then (refs, MissingObject(missing.value))
    else if !ValidName(name) then (refs, BadName)
    else if c.after == NULL then
      if c.before == NULL then (refs, NullDelete)
      else if c.before !in table then (refs, UnknownOld)
      else Delete(refs, name, table[c.before])
    else if c.after !in table then (refs, UnknownNew)
    else if c.before == NULL then Update(refs, name, table[c.after], None)
    else if c.before !in table then (refs, UnknownOld)
    else Update(refs, name, table[c.after], Some(table[c.before]))
  }

  function ExecuteAll(refs: Refs, table: map<Sha, Oid>, missing: Option<Sha>, segment: string, cs: seq<Command>):
      (Refs, seq<Outcome>)
  {
    if cs == [] then (refs, [])
    else
      var (before, outcomes) := ExecuteAll(refs, table, missing, segment, cs[..|cs| - 1]);
      var (after, outcome) := Execute(before, table, missing, segment, cs[|cs| - 1]);
      (after, outcomes + [outcome])
  }

  /** `index` leads from exactly the listed git ids to where they are stored. */
  ghost predicate Indexes(git: Git, st: Store, index: map<Sha, Oid>) {
    && index.Keys == IndexShas(git, st)
    && (forall s :: s in index ==> index[s] in Ids(st))
    && (forall o: GitObject :: git.sha(o) in index ==> index[git.sha(o)] == git.hash(o.content))
  }

  /** `table` finds the place of exactly the objects that are listed, or were in the packfile. */
  ghost predicate Resolver(git: Git, st: Store, pack: seq<GitObject>, table: map<Sha, Oid>) {
    && table.Keys == PackShas(git, pack).Keys + IndexShas(git, Stored(git, st, pack))
    && (forall s :: s in table ==> table[s] in Ids(Stored(git, st, pack)))
    && (forall o: GitObject :: git.sha(o) in table ==> table[git.sha(o)] == git.hash(o.content))
  }

  /** The store without the loose file `id`. */
  function Collected(st: Store, id: Oid): Store { st.(loose := st.loose - {id}) }

  /** There is no loose file of `id`, or a packfile has the same object. */
  predicate StillIndexed(st: Store, id: Oid) {
    id in st.loose ==> id in st.packed && st.packed[id] == st.loose[id]
  }

  /** An index that was right stays right through a collection exactly then. */
  lemma CollectKeepsIndexIff(git: Git, st: Store, id: Oid, index: map<Sha, Oid>)
    requires GitOk(git) && Addressed(git, st) && Indexes(git, st, index)
    ensures Indexes(git, Collected(st, id), index) <==> StillIndexed(st, id)
  {
    if StillIndexed(st, id) {
      SameIndex(git, st, id);
    } else {
      GoneFromIndex(git, st, id);
    }
    hide GitOk, Addressed, Collected, IndexShas, Ids;
  }

  lemma SameIndex(git: Git, st: Store, id: Oid)
    requires StillIndexed(st, id)
    ensures IndexShas(git, Collected(st, id)) == IndexShas(git, st) && Ids(Collected(st, id)) == Ids(st)
  {
    var st' := Collected(st, id);
    forall s | s in ShasOf(git, st.loose) ensures s in IndexShas(git, st') {
      var k :| k in st.loose && git.sha(st.loose[k]) == s;
      if k == id { assert s in ShasOf(git, st.packed); } else { assert k in st'.loose; }
    }
    assert Ids(st') == Ids(st);
  }

  lemma GoneFromIndex(git: Git, st: Store, id: Oid)
    requires GitOk(git) && Addressed(git, st) && !StillIndexed(st, id)
    ensures git.sha(st.loose[id]) in IndexShas(git, st) && git.sha(st.loose[id]) !in IndexShas(git, Collected(st, id))
  {
    var gone := st.loose[id];
    assert git.sha(gone) in ShasOf(git, st.loose);
    forall k | k in st.loose && k != id ensures git.sha(st.loose[k]) != git.sha(gone) { assert st.loose[k] != gone; }
    forall k | k in st.packed ensures git.sha(st.packed[k]) != git.sha(gone) { assert st.packed[k] != gone; }
  }

  class Server {
    const git: Git
    const packed: Objects
    var loose: Objects
    var cache: Option<map<Sha, Oid>>
    var refs: Refs

    function Contents(): Store
      reads this
    {
      Store(loose, packed)
    }

    constructor (git: Git, packed: Objects)
      ensures this.git == git && Contents() == Store(map[], packed) && cache == None && refs == map[]
    {
      this.git, this.packed, loose, cache, refs := git, packed, map[], None, map[];
    }

    /** A cached index is that of the store as it is. */
    ghost predicate Fresh()
      reads this
    {
      cache.Some? ==> Indexes(git, Contents(), cache.value)
    }

    /** Stores every object; each write drops the cached index. */
    method Unpack(pack: seq<GitObject>) returns (shas: map<Sha, Oid>, referenced: seq<Sha>)
      modifies this`loose, this`cache
      ensures Contents() == Stored(git, old(Contents()), pack)
      ensures cache == if pack == [] then old(cache) else None
      ensures shas == PackShas(git, pack) && referenced == Named(git, pack)
    {
      shas, referenced := map[], [];
      for i := 0 to |pack|
        invariant Contents() == Stored(git, old(Contents()), pack[..i])
        invariant cache == if i == 0 then old(cache) else None
        invariant shas == PackShas(git, pack[..i]) && referenced == Named(git, pack[..i])
      {
        assert pack[..i + 1][..i] == pack[..i];
        referenced := referenced + git.names(pack[i]);
        loose := loose[git.hash(pack[i].content) := pack[i]];
        cache := None;
        shas := shas[git.sha(pack[i]) := git.hash(pack[i].content)];
      }
      assert pack[..|pack|] == pack;
    }

    /** The collector removes a loose file and leaves the cached index as it is. What a packfile
        has of the object shows through, and nothing else changes; a cached index that was right
        stays right exactly if there was no such file or a packfile has the very object. */
    method Collect(id: Oid)
      modifies this`loose
      ensures Contents() == Collected(old(Contents()), id)
      ensures forall k :: At(Contents(), k) == if k == id then At(Store(map[], packed), id) else At(old(Contents()), k)
      ensures GitOk(git) && Addressed(git, old(Contents())) && old(Fresh()) ==>
        (Fresh() <==> cache.None? || StillIndexed(old(Contents()), id))
    {
      ghost var st := Contents();
      if GitOk(git) && Addressed(git, st) && Fresh() && cache.Some? { CollectKeepsIndexIff(git, st, id, cache.value); }
      loose := loose - {id};
      hide Indexes, GitOk, Addressed;
    }

    /** The cached index, or else a scan of every file and every packed object. */
    method Index() returns (index: map<Sha, Oid>)
      requires GitOk(git) && Addressed(git, Contents())
      modifies this`cache
      ensures if old(cache).Some? then index == old(cache).value && cache == old(cache) else cache == Some(index)
      ensures old(Fresh()) ==> Indexes(git, Contents(), index) && Fresh()
    {
      hide GitOk, Indexes, Addressed;
      if cache.Some? { return cache.value; }
      var l := Scan(git, loose);
      var p := Scan(git, packed);
      index := l + p;
      ScansIndex(git, Contents(), l, p);
      cache := Some(index);
    }

    method FindMissing(referenced: seq<Sha>, shas: map<Sha, Oid>, index: map<Sha, Oid>) returns (missing: Option<Sha>)
      ensures missing == FirstOutside(referenced, shas.Keys + index.Keys)
    {
      var i := 0;
      while i < |referenced|
        invariant i <= |referenced|
        invariant FirstOutside(referenced, shas.Keys + index.Keys) == FirstOutside(referenced[i..], shas.Keys + index.Keys)
      {
        if referenced[i] !in shas && referenced[i] !in index { return Some(referenced[i]); }
        i := i + 1;
      }
      missing := None;
    }

    /** With a fresh index, or any objects sent, refs and outcomes are those of storing, checking
        against the store, and executing in order. With a stale index and nothing sent, the
        commands are resolved against what was stored once. */
    method ReceivePack(commands: seq<Command>, pack: seq<GitObject>, segment: string)
        returns (outcomes: seq<Outcome>, table: map<Sha, Oid>)
      requires GitOk(git) && Addressed(git, Contents())
      modifies this
      ensures Contents() == Stored(git, old(Contents()), pack)
      ensures pack != [] || old(Fresh()) ==> Fresh() && Resolver(git, old(Contents()), pack, table)
      ensures pack == [] && old(cache).Some? ==> table == old(cache).value
      ensures (refs, outcomes) == ExecuteAll(old(refs), table,
        if pack == [] then None else Missing(git, old(Contents()), pack), segment, commands)
    {
      hide GitOk, Addressed, Execute, Indexes, Resolver, Stored, PackShas, Named;
      ghost var st := Contents();
      StoredStaysAddressed(git, st, pack);
      NothingStored(git, st);
      var shas, referenced := Unpack(pack);
      var index := Index();
      if pack != [] || old(Fresh()) { TableResolves(git, st, pack, index); }
      var missing := None;
      if referenced != [] { missing := FindMissing(referenced, shas, index); }
      CheckIsMissing(git, st, pack, index);
      table := index + shas;
      outcomes := [];
      for i := 0 to |commands|
        invariant Contents() == Stored(git, st, pack)
        invariant pack != [] || old(Fresh()) ==> Fresh()
        invariant (refs, outcomes) == ExecuteAll(old(refs), table, missing, segment, commands[..i])
      {
        assert commands[..i + 1][..i] == commands[..i];
        var (after, outcome) := Execute(refs, table, missing, segment, commands[i]);
        refs, outcomes := after, outcomes + [outcome];
      }
      assert commands[..|commands|] == commands;
    }
  }

  /** One index entry per object. */
  method Scan(git: Git, objects: Objects) returns (index: map<Sha, Oid>)
    ensures index.Keys == ShasOf(git, objects)
    ensures forall s :: s in index ==> index[s] in objects && git.sha(objects[index[s]]) == s
  {
    index := map[];
    var left := objects.Keys;
    while left != {}
      invariant left <= objects.Keys
      invariant index.Keys == set id | id in objects.Keys - left :: git.sha(objects[id])
      invariant forall s :: s in index ==> index[s] in objects && git.sha(objects[index[s]]) == s
      decreases left
    {
      var id :| id in left;
      assert objects.Keys - (left - {id}) == objects.Keys - left + {id};
      left := left - {id};
      index := index[git.sha(objects[id]) := id];
    }
    assert objects.Keys - left == objects.Keys;
  }

  lemma ScansIndex(git: Git, st: Store, l: map<Sha, Oid>, p: map<Sha, Oid>)
    requires GitOk(git) && Addressed(git, st)
    requires l.Keys == ShasOf(git, st.loose) && p.Keys == ShasOf(git, st.packed)
    requires forall s :: s in l ==> l[s] in st.loose && git.sha(st.loose[l[s]]) == s
    requires forall s :: s in p ==> p[s] in st.packed && git.sha(st.packed[p[s]]) == s
    ensures Indexes(git, st, l + p)
  {
    hide ShasOf;
  }

  lemma NothingStored(git: Git, st: Store)
    ensures Stored(git, st, []) == st && PackShas(git, []) == map[] && Named(git, []) == []
  {}

  lemma {:induction false} StoredStaysAddressed(git: Git, st: Store, pack: seq<GitObject>)
    requires Addressed(git, st)
    ensures Addressed(git, Stored(git, st, pack)) && Stored(git, st, pack).packed == st.packed
  {
    if pack != [] { StoredStaysAddressed(git, st, pack[..|pack| - 1]); }
  }

  lemma {:induction false} PackShasAre(git: Git, st: Store, pack: seq<GitObject>)
    ensures forall s :: s in PackShas(git, pack) <==> exists o :: o in pack && git.sha(o) == s
    ensures forall s :: s in PackShas(git, pack) ==> PackShas(git, pack)[s] in Ids(Stored(git, st, pack))
    ensures forall s :: s in PackShas(git, pack) ==>
      exists o :: o in pack && git.sha(o) == s && PackShas(git, pack)[s] == git.hash(o.content)
  {
    if pack != [] { PackShasAre(git, st, pack[..|pack| - 1]); }
  }

  lemma TableResolves(git: Git, st: Store, pack: seq<GitObject>, index: map<Sha, Oid>)
    requires GitOk(git) && Indexes(git, Stored(git, st, pack), index)
    ensures Resolver(git, st, pack, index + PackShas(git, pack))
  {
    hide Stored, PackShas, IndexShas;
    PackShasAre(git, st, pack);
  }

  lemma CheckIsMissing(git: Git, st: Store, pack: seq<GitObject>, index: map<Sha, Oid>)
    ensures Indexes(git, Stored(git, st, pack), index) ==>
      Missing(git, st, pack) == FirstOutside(Named(git, pack), PackShas(git, pack).Keys + index.Keys)
    ensures Named(git, pack) == [] ==> Missing(git, st, pack) == None
  {
    hide Stored, PackShas, IndexShas;
  }
}
