/**
 Runs of writes and delta rewrites: no chain ever becomes cyclic and no object's
 content ever changes; and exactly when the objects whose chains run through a
 rewritten one can still be read within the 50-hop limit.
 */
module DeltaChains {
  import opened Bytes
  import opened Options
  import opened Delta
  import opened PackFormat
  import opened DeltaStore

  datatype Op = Write(content: seq<byte>) | Redelta(target: Oid, base: Oid, delta: seq<byte>)

  predicate Enabled(env: Env, s: Disk, op: Op) {
    match op
    case Write(_) => true
    case Redelta(t, b, delta) => Admits(s, t, b) && Rebuilds(env, s, t, b, delta) && Shrinks(env, s, t, b, delta)
  }

  /** The reader's 2 GiB cap on whatever the op compresses. */
  predicate Fits(op: Op) {
    match op
    case Write(content) => |content| <= MAX_DECOMPRESSED
    case Redelta(_, _, delta) => |delta| <= MAX_DECOMPRESSED
  }

  function Next(env: Env, s: Disk, op: Op): Disk {
    match op
    case Write(content) => Written(env, s, content)
    case Redelta(t, b, delta) => Rewritten(env, s, t, b, delta)
  }

  predicate IsRun(env: Env, s: Disk, ops: seq<Op>)
    decreases |ops|
  {
    ops != [] ==> Enabled(env, s, ops[0]) && Fits(ops[0]) && IsRun(env, Next(env, s, ops[0]), ops[1..])
  }

  function After(env: Env, s: Disk, ops: seq<Op>): Disk
    decreases |ops|
  {
    if ops == [] then s else After(env, Next(env, s, ops[0]), ops[1..])
  }

  // ----- what every store keeps ----------------------------------------------------------------

  /** The file rebuilds the content its name stands for, if it rebuilds anything. */
  ghost predicate Names(env: Env, id: Oid, f: File) {
    match f
    case Raw(body) => env.hash(body) == id
    case Compressed(z) => Inflate(env, z).Ok? ==> env.hash(Inflate(env, z).value) == id
    case DeltaFile(b, z) => forall c :: env.hash(c) == b ==> DeltaNames(env, id, c, z)
  }

  ghost predicate DeltaNames(env: Env, id: Oid, c: seq<byte>, z: seq<byte>) {
    Inflate(env, z).Ok? && ApplyDelta(c, Inflate(env, z).value).Ok? ==>
      env.hash(ApplyDelta(c, Inflate(env, z).value).value) == id
  }

  ghost predicate Faithful(env: Env, s: Disk) {
    && (forall id :: id in s.loose ==> Names(env, id, s.loose[id]))
    && (forall id :: id in s.packs ==> env.hash(s.packs[id].content) == id)
  }

  /** The chain from `id` ends after exactly `n` hops. */
  predicate HasDepth(s: Disk, id: Oid, n: nat)
    decreases n
  {
    if BaseOf(s, id).None? then n == 0 else n > 0 && HasDepth(s, BaseOf(s, id).value, n - 1)
  }

  ghost predicate Grounded(s: Disk, id: Oid) { exists n: nat :: HasDepth(s, id, n) }

  ghost predicate Acyclic(s: Disk) { forall id :: Grounded(s, id) }

  ghost predicate Resolves(env: Env, s: Disk, id: Oid, c: seq<byte>) {
    exists l: nat :: Read(env, s, id, l) == Ok(c)
  }

  ghost predicate Keeps(env: Env, s: Disk, s': Disk) {
    forall id, c :: Resolves(env, s, id, c) ==> Resolves(env, s', id, c)
  }

  ghost predicate Inv(env: Env, s: Disk) { EnvOk(env) && Faithful(env, s) && Acyclic(s) }

  lemma {:induction false} ReadsItsName(env: Env, s: Disk, id: Oid, l: nat)
    requires Faithful(env, s) && Read(env, s, id, l).Ok?
    ensures env.hash(Read(env, s, id, l).value) == id
    decreases l
  {
    hide ApplyDelta, Inflate;
    if id in s.loose && s.loose[id].DeltaFile? {
      ReadsItsName(env, s, s.loose[id].base, l - 1);
      assert DeltaNames(env, id, Read(env, s, s.loose[id].base, l - 1).value, s.loose[id].z);
    }
  }

  lemma {:induction false} MoreFuel(env: Env, s: Disk, id: Oid, l: nat, more: nat)
    requires Read(env, s, id, l).Ok? && l <= more
    ensures Read(env, s, id, more) == Read(env, s, id, l)
    decreases l
  {
    hide ApplyDelta, Inflate;
    if id in s.loose && s.loose[id].DeltaFile? { MoreFuel(env, s, s.loose[id].base, l - 1, more - 1); }
  }

  lemma {:induction false} CountedDepth(s: Disk, id: Oid, left: nat)
    requires ChainDepth(s, id, left) < left
    ensures HasDepth(s, id, ChainDepth(s, id, left))
    decreases left
  {
    if BaseOf(s, id).Some? { CountedDepth(s, BaseOf(s, id).value, left - 1); }
  }

  /** The chain from `id` ends after `n` hops without meeting `t`. */
  predicate ClearOf(s: Disk, id: Oid, t: Oid, n: nat)
    decreases n
  {
    id != t && if BaseOf(s, id).None? then n == 0 else n > 0 && ClearOf(s, BaseOf(s, id).value, t, n - 1)
  }

  lemma {:induction false} UnmetIsClear(s: Disk, id: Oid, t: Oid, n: nat, left: nat)
    requires HasDepth(s, id, n) && id != t && !Meets(s, id, t, left) && n < left
    ensures ClearOf(s, id, t, n)
    decreases n
  {
    if BaseOf(s, id).Some? { UnmetIsClear(s, BaseOf(s, id).value, t, n - 1, left - 1); }
  }

  /** Only the file of `t` differs. */
  ghost predicate Differ(s: Disk, s': Disk, t: Oid) {
    s'.packs == s.packs && forall id :: id != t ==>
      ((id in s'.loose <==> id in s.loose) && (id in s.loose ==> s'.loose[id] == s.loose[id]))
  }

  lemma {:induction false} ClearChainStays(env: Env, s: Disk, s': Disk, id: Oid, t: Oid, n: nat)
    requires ClearOf(s, id, t, n) && Differ(s, s', t)
    ensures HasDepth(s', id, n)
    ensures forall l :: Read(env, s', id, l) == Read(env, s, id, l)
    decreases n
  {
    hide ApplyDelta, Inflate;
    if BaseOf(s, id).Some? { ClearChainStays(env, s, s', BaseOf(s, id).value, t, n - 1); }
  }

  lemma {:induction false} StaysGrounded(s: Disk, s': Disk, t: Oid, m: nat, x: Oid, n: nat) returns (n': nat)
    requires Differ(s, s', t) && HasDepth(s', t, m) && HasDepth(s, x, n)
    ensures HasDepth(s', x, n')
    decreases n
  {
    if x == t { return m; }
    if BaseOf(s, x).None? { return 0; }
    n' := StaysGrounded(s, s', t, m, BaseOf(s, x).value, n - 1);
    n' := n' + 1;
  }

  /** Re-encoding `t` so that it still reads as its name leaves every content as it was. */
  lemma {:induction false} StaysResolved(env: Env, s: Disk, s': Disk, t: Oid, k: nat, x: Oid, l: nat) returns (l': nat)
    requires EnvOk(env) && Faithful(env, s) && Differ(s, s', t)
    requires Read(env, s', t, k).Ok? && env.hash(Read(env, s', t, k).value) == t && Read(env, s, x, l).Ok?
    ensures Read(env, s', x, l') == Read(env, s, x, l)
    decreases l
  {
    hide ApplyDelta, Inflate;
    ReadsItsName(env, s, x, l);
    if x == t { return k; }
    if x !in s.loose || !s.loose[x].DeltaFile? { return 0; }
    l' := StaysResolved(env, s, s', t, k, s.loose[x].base, l - 1);
    l' := l' + 1;
  }

  lemma ReplaceKeeps(env: Env, s: Disk, s': Disk, t: Oid, m: nat, k: nat)
    requires Inv(env, s) && Differ(s, s', t) && HasDepth(s', t, m) && Faithful(env, s')
    requires Read(env, s', t, k).Ok?
    ensures Inv(env, s') && Keeps(env, s, s')
  {
    hide Faithful, Differ, HasDepth, Read;
    ReadsItsName(env, s', t, k);
    forall x ensures Grounded(s', x) {
      assert Grounded(s, x);
      var n: nat :| HasDepth(s, x, n);
      var n' := StaysGrounded(s, s', t, m, x, n);
    }
    forall x, c | Resolves(env, s, x, c) ensures Resolves(env, s', x, c) {
      var l: nat :| Read(env, s, x, l) == Ok(c);
      var l' := StaysResolved(env, s, s', t, k, x, l);
    }
  }

  // ----- the two ops -----------------------------------------------------------------------------

  lemma WriteStays(env: Env, s: Disk, content: seq<byte>)
    requires EnvOk(env) && Faithful(env, s)
    ensures Faithful(env, Written(env, s, content)) && Differ(s, Written(env, s, content), env.hash(content))
    ensures HasDepth(Written(env, s, content), env.hash(content), 0)
    ensures |content| <= MAX_DECOMPRESSED ==> Read(env, Written(env, s, content), env.hash(content), 0) == Ok(content)
  {
    hide Inflate, ApplyDelta;
    InflateUndoes(env, content);
  }

  /** After a delta rewrite the target reads as before, unless the delta is over the cap. */
  lemma RewriteStays(env: Env, s: Disk, t: Oid, b: Oid, delta: seq<byte>) returns (n: nat)
    requires EnvOk(env) && Faithful(env, s) && Admits(s, t, b) && Rebuilds(env, s, t, b, delta)
    ensures n < MAX_CHAIN - 1 && ClearOf(s, b, t, n) && Differ(s, Rewritten(env, s, t, b, delta), t)
    ensures Faithful(env, Rewritten(env, s, t, b, delta)) && HasDepth(Rewritten(env, s, t, b, delta), t, n + 1)
    ensures |delta| <= MAX_DECOMPRESSED ==>
      Read(env, Rewritten(env, s, t, b, delta), t, MAX_CHAIN + 1) == ReadObject(env, s, t)
    ensures |delta| > MAX_DECOMPRESSED ==> forall l :: Read(env, Rewritten(env, s, t, b, delta), t, l).Corrupt?
  {
    hide ApplyDelta, Inflate, ChainDepth, Meets;
    var s' := Rewritten(env, s, t, b, delta);
    n := ChainDepth(s, b, MAX_CHAIN);
    CountedDepth(s, b, MAX_CHAIN);
    UnmetIsClear(s, b, t, n, MAX_CHAIN);
    ClearChainStays(env, s, s', b, t, n);
    InflateUndoes(env, delta);
    ReadsItsName(env, s, b, MAX_CHAIN);
    ReadsItsName(env, s, t, MAX_CHAIN);
    forall c | env.hash(c) == b ensures DeltaNames(env, t, c, env.z.deflate(delta)) {
      assert c == ReadObject(env, s, b).value;
    }
  }

  lemma StepKeeps(env: Env, s: Disk, op: Op)
    requires Inv(env, s) && Enabled(env, s, op) && Fits(op)
    ensures Inv(env, Next(env, s, op)) && Keeps(env, s, Next(env, s, op))
  {
    hide Faithful, Differ, HasDepth, Read, Keeps, Acyclic, Written, Rewritten, Admits, Rebuilds;
    match op
    case Write(content) =>
      WriteStays(env, s, content);
      ReplaceKeeps(env, s, Next(env, s, op), env.hash(content), 0, 0);
    case Redelta(t, b, delta) =>
      var n := RewriteStays(env, s, t, b, delta);
      TargetReads(env, s, t, b, delta);
      ReplaceKeeps(env, s, Next(env, s, op), t, n + 1, MAX_CHAIN + 1);
  }

  /** The rewrite checks the delta before compressing it, so it loses the target exactly
      when the delta is more than the reader will inflate. */
  lemma ContentKeptIffFits(env: Env, s: Disk, t: Oid, b: Oid, delta: seq<byte>)
    requires Inv(env, s) && Enabled(env, s, Redelta(t, b, delta))
    ensures Keeps(env, s, Rewritten(env, s, t, b, delta)) <==> |delta| <= MAX_DECOMPRESSED
  {
    hide Faithful, Acyclic, Rewritten, Admits, Rebuilds, Read;
    if |delta| <= MAX_DECOMPRESSED {
      StepKeeps(env, s, Redelta(t, b, delta));
    } else {
      var n := RewriteStays(env, s, t, b, delta);
      TargetReads(env, s, t, b, delta);
      var c := ReadObject(env, s, t).value;
      assert Resolves(env, s, t, c) && !Resolves(env, Rewritten(env, s, t, b, delta), t, c);
    }
  }

  lemma TargetReads(env: Env, s: Disk, t: Oid, b: Oid, delta: seq<byte>)
    requires Rebuilds(env, s, t, b, delta)
    ensures ReadObject(env, s, t).Ok? && ReadObject(env, s, b).Ok?
  {}

  /** Over any run, no chain becomes cyclic and no content changes. */
  lemma {:induction false} RunKeeps(env: Env, s: Disk, ops: seq<Op>)
    requires Inv(env, s) && IsRun(env, s, ops)
    ensures Inv(env, After(env, s, ops)) && Keeps(env, s, After(env, s, ops))
    decreases |ops|
  {
    hide Faithful, Acyclic, Enabled, Next, Resolves;
    if ops != [] {
      StepKeeps(env, s, ops[0]);
      RunKeeps(env, Next(env, s, ops[0]), ops[1..]);
    }
  }
}
