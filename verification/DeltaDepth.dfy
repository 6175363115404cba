/**
 The 50-hop read limit. The rewrite measures the chain below the base, not the
 chains that already end in the target, so an object can be pushed out of reach:
 exactly when, a run that does it, and a discipline under which no run can.
 */
module DeltaDepth {
  import opened Bytes
  import opened Options
  import opened Delta
  import opened PackFormat
  import opened DeltaStore
  import opened DeltaChains

  /** Reading `id` follows exactly `n` loose deltas. */
  predicate Hops(s: Disk, id: Oid, n: nat)
    decreases n
  {
    if id in s.loose && s.loose[id].DeltaFile? then n > 0 && Hops(s, s.loose[id].base, n - 1) else n == 0
  }

  /** Reading `x` comes to `t` after `h` loose deltas. */
  predicate ReadsThrough(s: Disk, x: Oid, t: Oid, h: nat)
    decreases h
  {
    if h == 0 then x == t
    else x != t && x in s.loose && s.loose[x].DeltaFile? && ReadsThrough(s, s.loose[x].base, t, h - 1)
  }

  lemma {:induction false} ShortEnough(env: Env, s: Disk, x: Oid, n: nat, l: nat, k: nat)
    requires Hops(s, x, n) && Read(env, s, x, l).Ok?
    ensures n <= l
    ensures n <= k ==> Read(env, s, x, k) == Read(env, s, x, l)
    ensures k < n ==> Read(env, s, x, k).Corrupt?
    decreases n
  {
    hide ApplyDelta, Inflate;
    if n > 0 { ShortEnough(env, s, s.loose[x].base, n - 1, l - 1, if k == 0 then 0 else k - 1); }
  }

  /** An object that resolves is read exactly when its chain is within the limit. */
  lemma ReadableIffShort(env: Env, s: Disk, x: Oid, n: nat, c: seq<byte>)
    requires Hops(s, x, n) && Resolves(env, s, x, c)
    ensures ReadObject(env, s, x) == if n <= MAX_CHAIN then Ok(c) else Corrupt
  {
    hide Read, Hops;
    var l: nat :| Read(env, s, x, l) == Ok(c);
    ShortEnough(env, s, x, n, l, MAX_CHAIN);
  }

  lemma {:induction false} HopsWithin(s: Disk, x: Oid, d: nat) returns (n: nat)
    requires HasDepth(s, x, d)
    ensures n <= d && Hops(s, x, n)
    decreases d
  {
    if x !in s.loose || !s.loose[x].DeltaFile? { return 0; }
    n := HopsWithin(s, s.loose[x].base, d - 1);
    n := n + 1;
  }

  lemma {:induction false} ClearHops(s: Disk, s': Disk, x: Oid, t: Oid, d: nat, n: nat)
    requires ClearOf(s, x, t, d) && Differ(s, s', t) && Hops(s, x, n)
    ensures Hops(s', x, n)
    decreases n
  {
    if n > 0 { ClearHops(s, s', s.loose[x].base, t, d - 1, n - 1); }
  }

  lemma {:induction false} ThroughHops(s: Disk, s': Disk, x: Oid, t: Oid, h: nat, m: nat)
    requires ReadsThrough(s, x, t, h) && Differ(s, s', t) && Hops(s', t, m)
    ensures Hops(s', x, h + m)
    decreases h
  {
    if h > 0 { ThroughHops(s, s', s.loose[x].base, t, h - 1, m); }
  }

  /** A chain either passes through `t` or keeps its length. */
  lemma {:induction false} ElseSameHops(s: Disk, s': Disk, x: Oid, t: Oid, n: nat) returns (h: nat)
    requires Differ(s, s', t) && Hops(s, x, n)
    ensures ReadsThrough(s, x, t, h) || Hops(s', x, n)
    decreases n
  {
    h := 0;
    if x != t && n > 0 {
      h := ElseSameHops(s, s', s.loose[x].base, t, n - 1);
      h := h + 1;
    }
  }

  ghost predicate KeepsReadable(env: Env, s: Disk, s': Disk) {
    forall x :: ReadObject(env, s, x).Ok? ==> ReadObject(env, s', x) == ReadObject(env, s, x)
  }

  /** Every readable object that reads through `t` has room for the new chain below `t`. */
  ghost predicate HasRoom(env: Env, s: Disk, t: Oid, below: nat) {
    forall x, h: nat :: ReadsThrough(s, x, t, h) && ReadObject(env, s, x).Ok? ==> h + below <= MAX_CHAIN
  }

  lemma RewrittenHops(env: Env, s: Disk, t: Oid, b: Oid, delta: seq<byte>) returns (n: nat)
    requires EnvOk(env) && Faithful(env, s) && Admits(s, t, b) && Rebuilds(env, s, t, b, delta)
    ensures n < MAX_CHAIN - 1 && Hops(s, b, n) && Hops(Rewritten(env, s, t, b, delta), t, n + 1)
    ensures Differ(s, Rewritten(env, s, t, b, delta), t)
  {
    hide Faithful, Admits, Rebuilds, ClearOf, Differ, HasDepth, Read;
    var d := RewriteStays(env, s, t, b, delta);
    ClearChainStays(env, s, s, b, t, d) by { SelfDiffer(s, t); }
    n := HopsWithin(s, b, d);
    ClearHops(s, Rewritten(env, s, t, b, delta), b, t, d, n);
  }

  lemma SelfDiffer(s: Disk, t: Oid)
    ensures Differ(s, s, t)
  {}

  lemma {:induction false} OneHops(s: Disk, x: Oid, m: nat, n: nat)
    requires Hops(s, x, m) && Hops(s, x, n)
    ensures m == n
    decreases m
  {
    if m > 0 && n > 0 { OneHops(s, s.loose[x].base, m - 1, n - 1); }
  }

  lemma SomeHops(s: Disk, x: Oid) returns (n: nat)
    requires Acyclic(s)
    ensures Hops(s, x, n)
  {
    hide HasDepth, Hops;
    assert Grounded(s, x);
    var d: nat :| HasDepth(s, x, d);
    n := HopsWithin(s, x, d);
  }

  lemma RoomIsEnough(env: Env, s: Disk, t: Oid, b: Oid, delta: seq<byte>, n: nat, x: Oid)
    requires Inv(env, s) && Enabled(env, s, Redelta(t, b, delta)) && Fits(Redelta(t, b, delta))
    requires Hops(s, b, n) && HasRoom(env, s, t, n + 1) && ReadObject(env, s, x).Ok?
    ensures ReadObject(env, Rewritten(env, s, t, b, delta), x) == ReadObject(env, s, x)
  {
    hide Read, Hops, Faithful, Acyclic, Admits, Rebuilds, Shrinks, ReadsThrough, Rewritten, Differ;
    var s', c := Rewritten(env, s, t, b, delta), ReadObject(env, s, x).value;
    StepKeeps(env, s, Redelta(t, b, delta));
    assert Resolves(env, s, x, c) && Resolves(env, s', x, c);
    var k := RewrittenHops(env, s, t, b, delta);
    OneHops(s, b, n, k);
    var m := SomeHops(s, x);
    ReadableIffShort(env, s, x, m, c);
    var h := ElseSameHops(s, s', x, t, m);
    if ReadsThrough(s, x, t, h) {
      ThroughHops(s, s', x, t, h, n + 1);
      ReadableIffShort(env, s', x, h + n + 1, c);
    } else {
      ReadableIffShort(env, s', x, m, c);
    }
  }

  lemma RoomIsNeeded(env: Env, s: Disk, t: Oid, b: Oid, delta: seq<byte>, n: nat, x: Oid, h: nat)
    requires Inv(env, s) && Enabled(env, s, Redelta(t, b, delta)) && Fits(Redelta(t, b, delta))
    requires Hops(s, b, n) && ReadObject(env, s, x).Ok? && ReadsThrough(s, x, t, h) && h + n + 1 > MAX_CHAIN
    ensures ReadObject(env, Rewritten(env, s, t, b, delta), x).Corrupt?
  {
    hide Read, Hops, Faithful, Acyclic, Admits, Rebuilds, Shrinks, ReadsThrough, Rewritten, Differ;
    var s', c := Rewritten(env, s, t, b, delta), ReadObject(env, s, x).value;
    StepKeeps(env, s, Redelta(t, b, delta));
    assert Resolves(env, s, x, c) && Resolves(env, s', x, c);
    var k := RewrittenHops(env, s, t, b, delta);
    OneHops(s, b, n, k);
    ThroughHops(s, s', x, t, h, n + 1);
    ReadableIffShort(env, s', x, h + n + 1, c);
  }

  /** A committed rewrite leaves everything readable exactly when every chain through the
      target has room for it. */
  lemma ReadableIffRoom(env: Env, s: Disk, t: Oid, b: Oid, delta: seq<byte>, n: nat)
    requires Inv(env, s) && Enabled(env, s, Redelta(t, b, delta)) && Fits(Redelta(t, b, delta)) && Hops(s, b, n)
    ensures KeepsReadable(env, s, Rewritten(env, s, t, b, delta)) <==> HasRoom(env, s, t, n + 1)
  {
    hide Read, Hops, Inv, Enabled, Fits, ReadsThrough, Rewritten;
    if HasRoom(env, s, t, n + 1) {
      forall x | ReadObject(env, s, x).Ok?
        ensures ReadObject(env, Rewritten(env, s, t, b, delta), x) == ReadObject(env, s, x)
      {
        RoomIsEnough(env, s, t, b, delta, n, x);
      }
    } else {
      var x, h: nat :| ReadsThrough(s, x, t, h) && ReadObject(env, s, x).Ok? && h + (n + 1) > MAX_CHAIN;
      RoomIsNeeded(env, s, t, b, delta, n, x, h);
    }
  }

  // ----- a discipline that is enough -------------------------------------------------------------

  /** No loose delta is based on `t`. */
  ghost predicate Leaf(s: Disk, t: Oid) {
    forall x :: x in s.loose && s.loose[x].DeltaFile? ==> s.loose[x].base != t
  }

  predicate LeafRun(env: Env, s: Disk, ops: seq<Op>)
    decreases |ops|
  {
    ops != [] ==>
      && (ops[0].Redelta? ==> forall x :: x in s.loose && s.loose[x].DeltaFile? ==> s.loose[x].base != ops[0].target)
      && LeafRun(env, Next(env, s, ops[0]), ops[1..])
  }

  ghost predicate InReach(s: Disk, x: Oid) { exists n: nat :: n < MAX_CHAIN && Hops(s, x, n) }

  ghost predicate Shallow(s: Disk) { forall x :: InReach(s, x) }

  lemma {:induction false} LeafOnlyThroughItself(s: Disk, x: Oid, t: Oid, h: nat)
    requires Leaf(s, t) && ReadsThrough(s, x, t, h)
    ensures h == 0
    decreases h
  {
    if h > 1 { LeafOnlyThroughItself(s, s.loose[x].base, t, h - 1); }
  }

  /** A new file with a shorter chain below it lengthens no chain. */
  lemma {:induction false} NoLonger(s: Disk, s': Disk, x: Oid, t: Oid, n: nat) returns (n': nat)
    requires Differ(s, s', t) && Hops(s', t, 0) && Hops(s, x, n)
    ensures n' <= n && Hops(s', x, n')
    decreases n
  {
    if x == t || n == 0 { return 0; }
    n' := NoLonger(s, s', s.loose[x].base, t, n - 1);
    n' := n' + 1;
  }

  lemma WriteHops(env: Env, s: Disk, content: seq<byte>)
    ensures Hops(Written(env, s, content), env.hash(content), 0) && Differ(s, Written(env, s, content), env.hash(content))
  {}

  lemma StepStaysShallow(env: Env, s: Disk, op: Op)
    requires Inv(env, s) && Enabled(env, s, op) && Shallow(s) && (op.Redelta? ==> Leaf(s, op.target))
    ensures Shallow(Next(env, s, op))
  {
    hide Faithful, Acyclic, Admits, Rebuilds, Hops, Differ, Written, Rewritten, Leaf, ReadsThrough;
    forall x ensures InReach(Next(env, s, op), x) {
      assert InReach(s, x);
      var m: nat :| m < MAX_CHAIN && Hops(s, x, m);
      match op
      case Write(content) =>
        WriteHops(env, s, content);
        var n := NoLonger(s, Next(env, s, op), x, env.hash(content), m);
      case Redelta(t, b, delta) =>
        var k := RewrittenHops(env, s, t, b, delta);
        var h := ElseSameHops(s, Next(env, s, op), x, t, m);
        if ReadsThrough(s, x, t, h) {
          LeafOnlyThroughItself(s, x, t, h);
          assert x == t by { ThroughZero(s, x, t); }
          assert Hops(Next(env, s, op), x, k + 1);
        }
    }
  }

  lemma ThroughZero(s: Disk, x: Oid, t: Oid)
    requires ReadsThrough(s, x, t, 0)
    ensures x == t
  {}

  /** If only objects that nothing is based on are rewritten, no run puts anything out of
      reach: whatever resolved at the start still reads, with the same content. */
  lemma {:induction false} LeafRunsStayReadable(env: Env, s: Disk, ops: seq<Op>)
    requires Inv(env, s) && Shallow(s) && IsRun(env, s, ops) && LeafRun(env, s, ops)
    ensures Shallow(After(env, s, ops))
    ensures forall x, c :: Resolves(env, s, x, c) ==> ReadObject(env, After(env, s, ops), x) == Ok(c)
    decreases |ops|
  {
    hide Inv, Enabled, Next, Resolves, Hops, Read;
    if ops == [] {
      forall x, c | Resolves(env, s, x, c) ensures ReadObject(env, s, x) == Ok(c) {
        assert InReach(s, x);
        var n: nat :| n < MAX_CHAIN && Hops(s, x, n);
        ReadableIffShort(env, s, x, n, c);
      }
    } else {
      assert ops[0].Redelta? ==> Leaf(s, ops[0].target);
      StepStaysShallow(env, s, ops[0]);
      StepKeeps(env, s, ops[0]);
      LeafRunsStayReadable(env, Next(env, s, ops[0]), ops[1..]);
    }
  }
}
