/**
 A run of ordinary rewrites, from a store whose objects are all packed, that puts a
 readable object beyond the read limit. It builds two chains of thirty deltas and
 then bases the foot of one on the head of the other.
 */
module DeltaStranding {
  import opened Bytes
  import opened Options
  import opened Varints
  import opened Delta
  import opened PackFormat
  import opened DeltaStore
  import opened DeltaChains
  import opened DeltaDepth

  /** The object whose content is the single byte `i`. */
  function Single(env: Env, i: byte): Oid { env.hash([i]) }

  /** A delta from any one-byte object to `[i]`: insert one byte. */
  function Literal(i: byte): seq<byte> { [1, 1, 1, i] }

  /** Every one-byte object below `n`, packed whole. */
  function Foundation(env: Env, n: nat): map<Oid, Packed>
    requires n <= 256
  {
    if n == 0 then map[] else Foundation(env, n - 1)[Single(env, n - 1) := Packed([n - 1], None)]
  }

  lemma Distinct(env: Env, i: byte, j: byte)
    requires EnvOk(env) && i != j
    ensures Single(env, i) != Single(env, j)
  {
    assert [i][0] != [j][0];
  }

  lemma {:induction false} FoundationHolds(env: Env, n: nat, i: nat)
    requires EnvOk(env) && i < n <= 256
    ensures Single(env, i) in Foundation(env, n) && Foundation(env, n)[Single(env, i)] == Packed([i], None)
  {
    if i < n - 1 {
      FoundationHolds(env, n - 1, i);
      Distinct(env, i, n - 1);
    }
  }

  lemma {:induction false} FoundationIsPlain(env: Env, n: nat)
    requires n <= 256
    ensures forall id :: id in Foundation(env, n) ==>
      env.hash(Foundation(env, n)[id].content) == id && Foundation(env, n)[id].base == None
  {
    if n > 0 { FoundationIsPlain(env, n - 1); }
  }

  function Ground(env: Env): Disk { Disk(map[], Foundation(env, 256)) }

  lemma GroundIsSound(env: Env)
    requires EnvOk(env)
    ensures Inv(env, Ground(env))
  {
    hide Foundation, EnvOk;
    FoundationIsPlain(env, 256);
    forall id ensures Grounded(Ground(env), id) { assert HasDepth(Ground(env), id, 0); }
  }

  lemma LiteralApplies(j: byte, i: byte)
    ensures ApplyDelta([j], Literal(i)) == Ok([i])
  {
    var d, tail := Literal(i), [1, i];
    assert ReadSize(d) == Ok((1, 1)) by {
      assert SizeBytes(1) == [1];
      SizeRoundTrip(1, [1, 1, i]);
      assert [1] + [1, 1, i] == d;
    }
    assert ReadSize(d[1..]) == Ok((1, 1)) by {
      SizeRoundTrip(1, [1, i]);
      assert [1] + [1, i] == d[1..];
    }
    assert d[2..] == tail;
    assert ReadInstr(tail) == Ok((Insert([i]), 2)) by { assert tail[1..2] == [i]; }
    assert tail[2..] == [];
    assert Run([j], tail[2..]) == Ok([]);
    assert [i] + [] == [i];
  }

  // ----- a tower of deltas -----------------------------------------------------------------------

  ghost predicate Linked(env: Env, s: Disk, i: nat)
    requires 0 < i < 256
  {
    Single(env, i) in s.loose &&
    s.loose[Single(env, i)] == DeltaFile(Single(env, i - 1), env.z.deflate(Literal(i)))
  }

  /** Objects `lo + 1` to `lo + n` are loose deltas, each on the one before; `lo` is packed. */
  ghost predicate Tower(env: Env, s: Disk, lo: nat, n: nat)
    requires lo + n < 256
  {
    && s.packs == Foundation(env, 256) && Single(env, lo) !in s.loose
    && forall i :: lo < i <= lo + n ==> Linked(env, s, i)
  }

  lemma {:induction false} Climb(env: Env, s: Disk, lo: nat, n: nat, i: nat, l: nat)
    requires EnvOk(env) && lo + n < 256 && Tower(env, s, lo, n) && i <= n
    ensures HasDepth(s, Single(env, lo + i), i) && Hops(s, Single(env, lo + i), i)
    ensures ReadsThrough(s, Single(env, lo + i), Single(env, lo), i)
    ensures i <= l ==> Read(env, s, Single(env, lo + i), l) == Ok([lo + i])
    decreases i
  {
    hide ApplyDelta, Inflate, EnvOk, Foundation;
    if i == 0 {
      FoundationHolds(env, 256, lo);
    } else {
      assert Linked(env, s, lo + i);
      Climb(env, s, lo, n, i - 1, if l == 0 then 0 else l - 1);
      LiteralApplies(lo + i - 1, lo + i);
      assert Sound(env.z) by { SoundEnv(env); }
      InflateUndoes(env, Literal(lo + i));
      Distinct(env, lo + i, lo);
    }
  }

  lemma SoundEnv(env: Env)
    requires EnvOk(env)
    ensures Sound(env.z)
  {}

  lemma {:induction false} NoMeeting(env: Env, s: Disk, lo: nat, n: nat, i: nat, other: nat, left: nat)
    requires EnvOk(env) && lo + n < 256 && Tower(env, s, lo, n) && i <= n && other < 256
    requires other < lo || lo + i < other
    ensures !Meets(s, Single(env, lo + i), Single(env, other), left)
    decreases i
  {
    hide EnvOk, Foundation;
    if i == 0 {
      FoundationHolds(env, 256, lo);
    } else if left > 0 {
      assert Linked(env, s, lo + i);
      Distinct(env, lo + i - 1, other);
      NoMeeting(env, s, lo, n, i - 1, other, left - 1);
    }
  }

  lemma {:induction false} DepthIsCounted(s: Disk, id: Oid, n: nat, left: nat)
    requires HasDepth(s, id, n) && n < left
    ensures ChainDepth(s, id, left) == n
    decreases n
  {
    if n > 0 { DepthIsCounted(s, BaseOf(s, id).value, n - 1, left - 1); }
  }

  /** A packed object outside the tower may be based on the tower's head. */
  lemma MayRest(env: Env, s: Disk, lo: nat, n: nat, t: nat)
    requires EnvOk(env) && lo + n < 256 && n <= 30 && Tower(env, s, lo, n) && t < 256
    requires t < lo || lo + n < t
    requires Single(env, t) !in s.loose
    ensures Enabled(env, s, Redelta(Single(env, t), Single(env, lo + n), Literal(t)))
    ensures Fits(Redelta(Single(env, t), Single(env, lo + n), Literal(t)))
  {
    hide EnvOk, Tower, ApplyDelta, Foundation, Meets, ChainDepth, HasDepth, Hops, ReadsThrough;
    Climb(env, s, lo, n, n, MAX_CHAIN);
    NoMeeting(env, s, lo, n, n, t, MAX_CHAIN);
    DepthIsCounted(s, Single(env, lo + n), n, MAX_CHAIN);
    Distinct(env, t, lo + n);
    LiteralApplies(lo + n, t);
    assert s.packs == Foundation(env, 256) by { TowerPacks(env, s, lo, n); }
    FoundationHolds(env, 256, t);
  }

  lemma TowerPacks(env: Env, s: Disk, lo: nat, n: nat)
    requires lo + n < 256 && Tower(env, s, lo, n)
    ensures s.packs == Foundation(env, 256)
  {}

  lemma {:induction false} RunThen(env: Env, s: Disk, ops: seq<Op>, more: seq<Op>)
    requires IsRun(env, s, ops) && IsRun(env, After(env, s, ops), more)
    ensures IsRun(env, s, ops + more) && After(env, s, ops + more) == After(env, After(env, s, ops), more)
    decreases |ops|
  {
    hide Enabled, Next, Fits;
    if ops == [] {
      assert ops + more == more;
    } else {
      RunThen(env, Next(env, s, ops[0]), ops[1..], more);
      assert (ops + more)[1..] == ops[1..] + more;
    }
  }

  lemma Once(env: Env, s: Disk, op: Op)
    requires Enabled(env, s, op) && Fits(op)
    ensures IsRun(env, s, [op]) && After(env, s, [op]) == Next(env, s, op)
  {
    hide Enabled, Next, Fits;
    assert After(env, Next(env, s, op), []) == Next(env, s, op);
  }

  /** Nothing from `lo` to `lo + n` is loose yet. */
  ghost predicate Vacant(env: Env, s: Disk, lo: nat, n: nat)
    requires lo + n < 256
  {
    forall i :: lo <= i <= lo + n ==> Single(env, i) !in s.loose
  }

  ghost predicate SameElsewhere(env: Env, s: Disk, s': Disk, lo: nat, n: nat)
    requires lo + n < 256
  {
    forall i :: 0 <= i < 256 && (i <= lo || lo + n < i) ==> SameFile(s, s', Single(env, i))
  }

  ghost predicate SameFile(s: Disk, s': Disk, id: Oid) {
    (id in s.loose <==> id in s'.loose) && (id in s.loose ==> s'.loose[id] == s.loose[id])
  }

  lemma Grows(env: Env, s: Disk, lo: nat, n: nat)
    requires EnvOk(env) && lo + n + 1 < 256 && Tower(env, s, lo, n)
    ensures var s' := Rewritten(env, s, Single(env, lo + n + 1), Single(env, lo + n), Literal(lo + n + 1));
            Tower(env, s', lo, n + 1) && forall i :: 0 <= i < 256 && i != lo + n + 1 ==> SameFile(s, s', Single(env, i))
  {
    hide EnvOk, Foundation;
    var s' := Rewritten(env, s, Single(env, lo + n + 1), Single(env, lo + n), Literal(lo + n + 1));
    forall i | 0 <= i < 256 && i != lo + n + 1 ensures SameFile(s, s', Single(env, i)) { Distinct(env, i, lo + n + 1); }
    assert SameFile(s, s', Single(env, lo));
    forall i | lo < i <= lo + n + 1 ensures Linked(env, s', i) {
      if i <= lo + n { assert Linked(env, s, i) && SameFile(s, s', Single(env, i)); }
    }
  }

  lemma {:induction false} Raise(env: Env, s: Disk, lo: nat, n: nat) returns (ops: seq<Op>)
    requires EnvOk(env) && lo + n < 256 && n <= 30 && s.packs == Foundation(env, 256) && Vacant(env, s, lo, n)
    ensures IsRun(env, s, ops) && Tower(env, After(env, s, ops), lo, n)
    ensures SameElsewhere(env, s, After(env, s, ops), lo, n)
    decreases n
  {
    hide EnvOk, Foundation, Enabled, Fits, SameFile, IsRun, After;
    if n == 0 {
      ops := Nothing(env, s);
    } else {
      var below := Raise(env, s, lo, n - 1);
      var s1, op := After(env, s, below), Redelta(Single(env, lo + n), Single(env, lo + n - 1), Literal(lo + n));
      assert SameFile(s, s1, Single(env, lo + n));
      assert Single(env, lo + n) !in s1.loose by { StaysVacant(s, s1, Single(env, lo + n)); }
      MayRest(env, s1, lo, n - 1, lo + n);
      Once(env, s1, op);
      RunThen(env, s, below, [op]);
      Grows(env, s1, lo, n - 1);
      ops := below + [op];
      forall i | 0 <= i < 256 && (i <= lo || lo + n < i) ensures SameFile(s, After(env, s, ops), Single(env, i)) {
        SameTwice(s, s1, After(env, s, ops), Single(env, i));
      }
    }
  }

  lemma Nothing(env: Env, s: Disk) returns (ops: seq<Op>)
    ensures IsRun(env, s, ops) && After(env, s, ops) == s && forall id :: SameFile(s, s, id)
  {
    ops := [];
  }

  lemma StaysVacant(s: Disk, s': Disk, id: Oid)
    requires SameFile(s, s', id) && id !in s.loose
    ensures id !in s'.loose
  {}

  lemma SameTwice(s: Disk, s': Disk, s'': Disk, id: Oid)
    requires SameFile(s, s', id) && SameFile(s', s'', id)
    ensures SameFile(s, s'', id)
  {}

  lemma TowerStands(env: Env, s: Disk, s': Disk, lo: nat, n: nat)
    requires lo + n < 256 && Tower(env, s, lo, n) && s'.packs == s.packs
    requires forall i :: lo <= i <= lo + n ==> SameFile(s, s', Single(env, i))
    ensures Tower(env, s', lo, n)
  {
    assert SameFile(s, s', Single(env, lo));
    forall i | lo < i <= lo + n ensures Linked(env, s', i) {
      assert Linked(env, s, i) && SameFile(s, s', Single(env, i));
    }
  }

  lemma TwoTowers(env: Env) returns (ops: seq<Op>)
    requires EnvOk(env)
    ensures IsRun(env, Ground(env), ops)
    ensures Tower(env, After(env, Ground(env), ops), 0, 30) && Tower(env, After(env, Ground(env), ops), 100, 30)
  {
    hide EnvOk, Foundation, IsRun, After, SameFile, Linked;
    var s := Ground(env);
    var first := Raise(env, s, 0, 30);
    var s1 := After(env, s, first);
    forall i | 100 <= i <= 130 ensures Single(env, i) !in s1.loose {
      assert SameFile(s, s1, Single(env, i));
      StaysVacant(s, s1, Single(env, i));
    }
    var second := Raise(env, s1, 100, 30);
    RunThen(env, s, first, second);
    ops := first + second;
    TowerStands(env, s1, After(env, s, ops), 0, 30);
  }

  /** Sixty-one rewrites, each allowed and each verified, leave an object unreadable. */
  lemma RewritesCanStrand(env: Env) returns (ops: seq<Op>, x: Oid)
    requires EnvOk(env)
    ensures Inv(env, Ground(env)) && IsRun(env, Ground(env), ops)
    ensures ReadObject(env, Ground(env), x).Ok? && ReadObject(env, After(env, Ground(env), ops), x).Corrupt?
  {
    hide EnvOk, Foundation, IsRun, After, Faithful, Acyclic, Enabled, Read, Hops, ReadsThrough, Tower;
    var s := Ground(env);
    GroundIsSound(env);
    x := Single(env, 30);
    var towers := TwoTowers(env);
    var s2, t, b := After(env, s, towers), Single(env, 0), Single(env, 130);
    RunKeeps(env, s, towers);
    assert t !in s2.loose by { TowerFoot(env, s2, 0, 30); }
    MayRest(env, s2, 100, 30, 0);
    Climb(env, s2, 0, 30, 30, MAX_CHAIN);
    Climb(env, s2, 100, 30, 30, MAX_CHAIN);
    RoomIsNeeded(env, s2, t, b, Literal(0), 30, x, 30);
    Once(env, s2, Redelta(t, b, Literal(0)));
    RunThen(env, s, towers, [Redelta(t, b, Literal(0))]);
    ops := towers + [Redelta(t, b, Literal(0))];
    PackedReads(env, 30);
  }

  lemma TowerFoot(env: Env, s: Disk, lo: nat, n: nat)
    requires lo + n < 256 && Tower(env, s, lo, n)
    ensures Single(env, lo) !in s.loose
  {}

  lemma PackedReads(env: Env, i: nat)
    requires EnvOk(env) && i < 256
    ensures ReadObject(env, Ground(env), Single(env, i)) == Ok([i])
  {
    FoundationHolds(env, 256, i);
  }
}
