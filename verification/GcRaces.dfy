/**
 A sweep with writers running beside it. The sweep looks at a file and unlinks it in
 two separate steps; object writes land anywhere in between, and each may recreate or
 replace any file.
 */
module GcRaces {
  import opened Bytes
  import opened Options
  import opened Delta
  import opened PackFormat
  import opened DeltaStore
  import opened DeltaChains
  import opened Gc

  /** The files with their times, and the file the sweep has found old but not yet unlinked. */
  datatype Node = Node(disk: Disk, mtime: map<Oid, nat>, pending: Option<Oid>)

  /** What a pass fixed before it began to sweep. */
  datatype Pass = Pass(keep: set<Oid>, candidates: set<Oid>, now: nat, grace: nat)

  datatype Step = Stat(id: Oid) | Unlink | Store(content: seq<byte>, at: nat)

  function FenceOf(p: Pass, n: Node): Fence { Fence(p.keep, n.mtime, p.now, p.grace) }

  /** The age of a file is looked at once; the unlink that follows does not look again. A
      write is stamped no earlier than the pass began. */
  predicate Enabled(p: Pass, n: Node, step: Step) {
    match step
    case Stat(id) => n.pending.None? && id in p.candidates && Sweepable(FenceOf(p, n), n.disk, id)
    case Unlink => n.pending.Some?
    case Store(content, at) => at >= p.now && |content| <= MAX_DECOMPRESSED
  }

  function Next(env: Env, p: Pass, n: Node, step: Step): Node
    requires Enabled(p, n, step)
  {
    match step
    case Stat(id) => n.(pending := Some(id))
    case Unlink => Node(Swept(n.disk, {n.pending.value}), n.mtime - {n.pending.value}, None)
    case Store(content, at) => n.(disk := Written(env, n.disk, content), mtime := n.mtime[env.hash(content) := at])
  }

  /** What is about to be unlinked was not kept. */
  predicate Spares(p: Pass, n: Node) { n.pending.Some? ==> n.pending.value !in p.keep }

  predicate IsRun(env: Env, p: Pass, n: Node, steps: seq<Step>)
    decreases |steps|
  {
    steps != [] ==> Enabled(p, n, steps[0]) && IsRun(env, p, Next(env, p, n, steps[0]), steps[1..])
  }

  function After(env: Env, p: Pass, n: Node, steps: seq<Step>): Node
    requires IsRun(env, p, n, steps)
    decreases |steps|
  {
    if steps == [] then n else After(env, p, Next(env, p, n, steps[0]), steps[1..])
  }

  // ----- kept objects --------------------------------------------------------------------------------

  /** Overwriting any object with its own content changes no read. */
  lemma {:induction false} WriteReads(env: Env, s: Disk, content: seq<byte>, x: Oid, l: nat)
    requires EnvOk(env) && Faithful(env, s) && |content| <= MAX_DECOMPRESSED && Read(env, s, x, l).Ok?
    ensures Read(env, Written(env, s, content), x, l) == Read(env, s, x, l)
    decreases l
  {
    hide ApplyDelta, Inflate;
    if x == env.hash(content) {
      ReadsItsName(env, s, x, l);
      InflateUndoes(env, content);
    } else if x in s.loose && s.loose[x].DeltaFile? {
      WriteReads(env, s, content, s.loose[x].base, l - 1);
    }
  }

  lemma SweptStaysFaithful(env: Env, s: Disk, dead: set<Oid>)
    requires Faithful(env, s)
    ensures Faithful(env, Swept(s, dead))
  {
    hide Names;
  }

  lemma DeleteStaysClosed(s: Disk, keep: set<Oid>, id: Oid)
    requires BaseClosed(s, keep) && id !in keep
    ensures BaseClosed(Swept(s, {id}), keep)
  {
    forall x | x in keep ensures BaseOf(Swept(s, {id}), x) == BaseOf(s, x) {}
  }

  lemma WriteStaysClosed(env: Env, s: Disk, keep: set<Oid>, content: seq<byte>)
    requires BaseClosed(s, keep)
    ensures BaseClosed(Written(env, s, content), keep)
  {
    forall x | x in keep && BaseOf(Written(env, s, content), x).Some?
      ensures BaseOf(Written(env, s, content), x) == BaseOf(s, x)
    {}
  }

  lemma StepKeepsReads(env: Env, p: Pass, n: Node, step: Step, x: Oid, c: seq<byte>)
    requires EnvOk(env) && Faithful(env, n.disk) && BaseClosed(n.disk, p.keep) && Spares(p, n) && Enabled(p, n, step)
    requires x in p.keep && ReadObject(env, n.disk, x) == Ok(c)
    ensures var n' := Next(env, p, n, step); Faithful(env, n'.disk) && BaseClosed(n'.disk, p.keep) && Spares(p, n')
    ensures ReadObject(env, Next(env, p, n, step).disk, x) == Ok(c)
  {
    hide EnvOk, Faithful, BaseClosed, Read, Age, Swept, Written;
    match step
    case Stat(_) =>
    case Unlink =>
      var id := n.pending.value;
      SweptStaysFaithful(env, n.disk, {id});
      DeleteStaysClosed(n.disk, p.keep, id);
      KeptReads(env, n.disk, p.keep, {id}, x, MAX_CHAIN);
    case Store(content, _) =>
      WriteStays(env, n.disk, content);
      WriteStaysClosed(env, n.disk, p.keep, content);
      WriteReads(env, n.disk, content, x, MAX_CHAIN);
  }

  /** At every point of a sweep, whatever is written beside it, what the mark kept reads as before. */
  lemma {:induction false} SweepIsSafe(env: Env, p: Pass, n: Node, steps: seq<Step>, x: Oid, c: seq<byte>)
    requires EnvOk(env) && Faithful(env, n.disk) && BaseClosed(n.disk, p.keep) && Spares(p, n) && IsRun(env, p, n, steps)
    requires x in p.keep && ReadObject(env, n.disk, x) == Ok(c)
    ensures ReadObject(env, After(env, p, n, steps).disk, x) == Ok(c)
    decreases |steps|
  {
    hide EnvOk, Faithful, BaseClosed, Spares, Read, Enabled, Next;
    if steps != [] {
      StepKeepsReads(env, p, n, steps[0], x, c);
      SweepIsSafe(env, p, Next(env, p, n, steps[0]), steps[1..], x, c);
    }
  }

  // ----- objects written during the pass ---------------------------------------------------------------

  ghost predicate Survives(env: Env, p: Pass, n: Node, content: seq<byte>) {
    forall steps :: IsRun(env, p, n, steps) ==>
      ReadObject(env, After(env, p, n, steps).disk, env.hash(content)) == Ok(content)
  }

  /** A packfile gives the object back once the loose file is gone. */
  predicate PackHolds(s: Disk, id: Oid) { id in s.packs && PackReads(s.packs[id]) }

  /** No pass over these candidates can come to unlink `id` if it is written now. */
  predicate OutOfDanger(p: Pass, n: Node, id: Oid) {
    || PackHolds(n.disk, id)
    || (n.pending != Some(id) && (p.grace > 0 || id in p.keep || id !in p.candidates))
  }

  /** Held by a packfile, or stored whole with nothing that could lead to its unlinking. */
  ghost predicate Secure(env: Env, p: Pass, n: Node, content: seq<byte>) {
    var id := env.hash(content);
    && (id in n.disk.loose ==> n.disk.loose[id] == Stored(env, content))
    && (id in n.disk.packs ==> n.disk.packs[id].content == content)
    && (PackHolds(n.disk, id) ||
        (id in n.disk.loose && n.pending != Some(id) &&
         (id in p.keep || id !in p.candidates || (p.grace > 0 && id in n.mtime && n.mtime[id] >= p.now))))
  }

  lemma SecureStays(env: Env, p: Pass, n: Node, content: seq<byte>, step: Step)
    requires EnvOk(env) && Secure(env, p, n, content) && Enabled(p, n, step)
    ensures Secure(env, p, Next(env, p, n, step), content)
  {
    if step.Store? && env.hash(step.content) == env.hash(content) { assert step.content == content; }
  }

  lemma {:induction false} SecureThroughout(env: Env, p: Pass, n: Node, content: seq<byte>, steps: seq<Step>)
    requires EnvOk(env) && Secure(env, p, n, content) && IsRun(env, p, n, steps)
    ensures Secure(env, p, After(env, p, n, steps), content)
    decreases |steps|
  {
    hide EnvOk, Secure, Enabled, Next;
    if steps != [] {
      SecureStays(env, p, n, content, steps[0]);
      SecureThroughout(env, p, Next(env, p, n, steps[0]), content, steps[1..]);
    }
  }

  lemma SecureReads(env: Env, p: Pass, n: Node, content: seq<byte>)
    requires EnvOk(env) && Secure(env, p, n, content) && |content| <= MAX_DECOMPRESSED
    ensures ReadObject(env, n.disk, env.hash(content)) == Ok(content)
  {
    hide Inflate;
    InflateUndoes(env, content);
  }

  lemma WrittenIsSecure(env: Env, p: Pass, n: Node, content: seq<byte>, at: nat)
    requires EnvOk(env) && Faithful(env, n.disk) && Enabled(p, n, Store(content, at)) && OutOfDanger(p, n, env.hash(content))
    ensures Secure(env, p, Next(env, p, n, Store(content, at)), content)
  {}

  /** The steps that take a file away that nothing protects. */
  function Losing(n: Node, id: Oid): seq<Step> {
    if n.pending == Some(id) then [Unlink]
    else if n.pending.Some? then [Unlink, Stat(id), Unlink]
    else [Stat(id), Unlink]
  }

  lemma LosingLoses(env: Env, p: Pass, n: Node, id: Oid)
    requires id in n.disk.loose && !PackHolds(n.disk, id)
    requires n.pending == Some(id) || (p.grace == 0 && id in p.candidates && id !in p.keep)
    ensures IsRun(env, p, n, Losing(n, id)) && ReadObject(env, After(env, p, n, Losing(n, id)).disk, id).Corrupt?
  {
    var steps := Losing(n, id);
    var n1 := if n.pending.Some? then Next(env, p, n, Unlink) else n;
    if n.pending == Some(id) {
      OneStep(env, p, n, Unlink);
    } else {
      var n2 := Next(env, p, n1, Stat(id));
      OneStep(env, p, n2, Unlink);
      MoreSteps(env, p, n1, Stat(id), [Unlink]);
      if n.pending.Some? { MoreSteps(env, p, n, Unlink, [Stat(id), Unlink]); }
    }
  }

  lemma OneStep(env: Env, p: Pass, n: Node, step: Step)
    requires Enabled(p, n, step)
    ensures IsRun(env, p, n, [step]) && After(env, p, n, [step]) == Next(env, p, n, step)
  {
    hide Enabled, Next;
    assert [step][1..] == [];
    assert IsRun(env, p, Next(env, p, n, step), []) && After(env, p, Next(env, p, n, step), []) == Next(env, p, n, step);
  }

  lemma MoreSteps(env: Env, p: Pass, n: Node, step: Step, rest: seq<Step>)
    requires Enabled(p, n, step) && IsRun(env, p, Next(env, p, n, step), rest)
    ensures IsRun(env, p, n, [step] + rest) && After(env, p, n, [step] + rest) == After(env, p, Next(env, p, n, step), rest)
  {
    assert ([step] + rest)[1..] == rest;
  }

  /** An object written during a pass survives whatever the sweep does next exactly if no
      unlink of it is pending and a grace period, the keep set or the candidate list protects
      it, or if a packfile holds it too. */
  lemma WriteSurvivesIff(env: Env, p: Pass, n: Node, content: seq<byte>, at: nat)
    requires EnvOk(env) && Faithful(env, n.disk) && Enabled(p, n, Store(content, at))
    ensures Survives(env, p, Next(env, p, n, Store(content, at)), content) <==> OutOfDanger(p, n, env.hash(content))
  {
    hide EnvOk, Faithful, Secure, IsRun, After, Read;
    var n', id := Next(env, p, n, Store(content, at)), env.hash(content);
    if OutOfDanger(p, n, id) {
      WrittenIsSecure(env, p, n, content, at);
      forall steps | IsRun(env, p, n', steps) ensures ReadObject(env, After(env, p, n', steps).disk, id) == Ok(content) {
        SecureThroughout(env, p, n', content, steps);
        SecureReads(env, p, After(env, p, n', steps), content);
      }
    } else {
      LosingLoses(env, p, n', id);
      var steps := Losing(n', id);
      assert IsRun(env, p, n', steps) && ReadObject(env, After(env, p, n', steps).disk, id) != Ok(content);
    }
  }

  /** Ten seconds of grace do not help: the sweep finds an old file, the same object is
      written anew, and the unlink takes the new file. */
  lemma UnlinkTakesNewFile(env: Env) returns (p: Pass, n: Node, content: seq<byte>)
    requires EnvOk(env)
    ensures p.grace == 10 && n.pending.None? && Faithful(env, n.disk)
    ensures IsRun(env, p, n, [Stat(env.hash(content)), Store(content, p.now), Unlink])
    ensures ReadObject(env, After(env, p, n, [Stat(env.hash(content)), Store(content, p.now), Unlink]).disk,
                       env.hash(content)).Corrupt?
  {
    content := [7];
    var id := env.hash(content);
    p, n := Pass({}, {id}, 20, 10), Node(Disk(map[id := Raw(content)], map[]), map[id := 0], None);
    var n1 := Next(env, p, n, Stat(id));
    var n2 := Next(env, p, n1, Store(content, p.now));
    OneStep(env, p, n2, Unlink);
    MoreSteps(env, p, n1, Store(content, p.now), [Unlink]);
    MoreSteps(env, p, n, Stat(id), [Store(content, p.now), Unlink]);
    assert [Stat(id)] + [Store(content, p.now), Unlink] == [Stat(id), Store(content, p.now), Unlink];
    assert [Store(content, p.now)] + [Unlink] == [Store(content, p.now), Unlink];
  }
}
