/**
 Where the encoder's output cannot be used: a copy from beyond 4 GiB decodes to other
 bytes, and a delta of more than 2 GiB is written but never inflated again.
 */
module DeltaLimits {
  import opened Bytes
  import opened Options
  import opened Varints
  import opened Delta
  import opened DeltaEncoder
  import opened PackFormat
  import opened DeltaStore
  import opened DeltaChains

  // ----- a match beyond 4 GiB -------------------------------------------------------------------

  /** 4 GiB of zeros, and then sixteen ones. */
  function FarBase(): (base: seq<byte>)
    ensures |base| == MAX_BASE + DELTA_WIN
    ensures forall i :: 0 <= i < |base| ==> base[i] == if i < MAX_BASE then 0 else 1
  {
    seq(MAX_BASE + DELTA_WIN, i => if i < MAX_BASE then 0 else 1)
  }

  function Ones(): (w: seq<byte>)
    ensures |w| == DELTA_WIN && forall i :: 0 <= i < |w| ==> w[i] == 1
  {
    seq(DELTA_WIN, _ => 1)
  }

  lemma OnlyFarWindow(p: nat)
    requires p + DELTA_WIN <= |FarBase()|
    ensures Window(FarBase(), p) == Ones() <==> p == MAX_BASE
  {
    hide FarBase, Ones;
    if p < MAX_BASE { assert Window(FarBase(), p)[0] == 0; }
  }

  /** Of the seventeen windows that occur in the base, the block hash tells the ones from the rest. */
  ghost predicate TellsOnes(hash: seq<byte> -> int) {
    forall p: nat :: p + DELTA_WIN <= |FarBase()| && hash(Window(FarBase(), p)) == hash(Ones()) ==> Window(FarBase(), p) == Ones()
  }

  /** The only position filed under the ones is the far one. */
  lemma FarCandidate(idx: DeltaIndex, hash: seq<byte> -> int)
    requires idx.base == FarBase() && IndexOf(idx, hash) && TellsOnes(hash)
    ensures Candidates(idx, hash, Ones(), 0) == [MAX_BASE]
  {
    hide FarBase, Ones;
    assert Ones()[0..DELTA_WIN] == Ones();
    OnlyFarWindow(MAX_BASE);
    var h := hash(Ones());
    assert Filed(idx.index, hash(Window(idx.base, MAX_BASE)), MAX_BASE);
    var bucket := idx.index[h];
    assert |bucket| > 1 ==> bucket[0] < bucket[1];
    forall i | 0 <= i < |bucket| ensures bucket[i] == MAX_BASE {
      assert hash(Window(idx.base, bucket[i])) == h;
      OnlyFarWindow(bucket[i]);
    }
    assert |bucket| == 1;
    assert bucket == [MAX_BASE];
  }

  lemma FarMatch(idx: DeltaIndex, hash: seq<byte> -> int)
    requires idx.base == FarBase() && Candidates(idx, hash, Ones(), 0) == [MAX_BASE]
    ensures BestAt(idx, hash, Ones(), 0) == (MAX_BASE, DELTA_WIN)
  {
    hide FarBase, Ones, Candidates;
    var cands := [MAX_BASE];
    assert cands[..0] == [];
    assert Best(idx.base, [], Ones(), 0) == (0, 0);
    OnlyFarWindow(MAX_BASE);
    assert Ones()[0..DELTA_WIN] == Ones();
    assert Matches(idx.base, MAX_BASE, Ones(), 0, DELTA_WIN);
    assert MatchLen(idx.base, MAX_BASE, Ones(), 0, DELTA_WIN) == DELTA_WIN;
  }

  /** With a block hash that tells the ones apart, the encoder copies them from offset 2^32, and
      the delta decodes to something else. */
  lemma FarCopyIsWrong(idx: DeltaIndex, hash: seq<byte> -> int)
    requires idx.base == FarBase() && IndexOf(idx, hash) && TellsOnes(hash)
    ensures FromBase(MAX_BASE, DELTA_WIN) in Plan(idx, hash, Ones(), 0, 0)
    ensures ApplyDelta(idx.base, Encoded(idx, hash, Ones())).Ok?
    ensures ApplyDelta(idx.base, Encoded(idx, hash, Ones())) != Ok(Ones())
  {
    hide FarBase, Ones, IndexOf, BestAt, Plan, Encoded, ApplyDelta, AllDecoded, AllMeant;
    FarCandidate(idx, hash);
    FarMatch(idx, hash);
    PlanCopies(idx, hash, Ones(), 0, 0, MAX_BASE, DELTA_WIN);
    var plan := Plan(idx, hash, Ones(), 0, 0);
    assert plan[1] == FromBase(MAX_BASE, DELTA_WIN);
    EncodedIsRightIff(idx, hash, Ones());
    assert Decoded(idx.base, plan[1])[0] == 0 && Meant(idx.base, plan[1])[0] == 1;
  }

  // ----- a delta beyond 2 GiB ---------------------------------------------------------------------

  /** Every 127 literal bytes cost one more. */
  lemma {:induction false} LiteralsAreLonger(bytes: seq<byte>)
    ensures 127 * |Literals(bytes)| >= 128 * |bytes|
    decreases |bytes|
  {
    if |bytes| > MAX_INSERT { LiteralsAreLonger(bytes[MAX_INSERT..]); }
  }

  /** A base shorter than a window gives nothing to copy. */
  lemma {:induction false} TinyBasePlan(idx: DeltaIndex, hash: seq<byte> -> int, target: seq<byte>, t: nat)
    requires |idx.base| < DELTA_WIN && t <= |target|
    ensures Plan(idx, hash, target, 0, t) == [Literal(target)]
    decreases |target| - t
  {
    hide Plan;
    if t == |target| {
      PlanEnds(idx, hash, target, 0);
      assert target[0..] == target;
    } else {
      PlanWaits(idx, hash, target, 0, t);
      TinyBasePlan(idx, hash, target, t + 1);
    }
  }

  lemma TinyBaseDelta(idx: DeltaIndex, hash: seq<byte> -> int, target: seq<byte>)
    requires |idx.base| < DELTA_WIN && |target| < U64
    ensures 127 * |Encoded(idx, hash, target)| > 128 * |target|
    ensures |target| <= MAX_OBJECT_SIZE ==> ApplyDelta(idx.base, Encoded(idx, hash, target)) == Ok(target)
  {
    hide Plan, Literals, OpsOf, SizeBytes, ApplyDelta;
    TinyBasePlan(idx, hash, target, 0);
    OnePiece(idx.base, target);
    LiteralsAreLonger(target);
    EncodedBelowLimit(idx, hash, target);
  }

  /** A packfile with `big` as a delta on `half`, and `tiny` whole. */
  function BigPack(env: Env, big: seq<byte>, half: seq<byte>, tiny: seq<byte>): Disk {
    Disk(map[], map[env.hash(half) := Packed(half, None), env.hash(tiny) := Packed(tiny, None),
                    env.hash(big) := Packed(big, Some(env.hash(half)))])
  }

  lemma BigPackIsSound(env: Env, big: seq<byte>, half: seq<byte>, tiny: seq<byte>)
    requires EnvOk(env) && big != half && big != tiny
    requires |big| <= MAX_OBJECT_SIZE && |half| <= MAX_PACK_OBJECT && |tiny| <= MAX_PACK_OBJECT
    ensures var s := BigPack(env, big, half, tiny);
      && Inv(env, s) && BaseOf(s, env.hash(tiny)) == None
      && ReadObject(env, s, env.hash(big)) == Ok(big) && ReadObject(env, s, env.hash(tiny)) == Ok(tiny)
  {
    var s := BigPack(env, big, half, tiny);
    Differs(env, big, half);
    Differs(env, big, tiny);
    forall id ensures Grounded(s, id) {
      assert HasDepth(s, env.hash(half), 0);
      assert if id == env.hash(big) then HasDepth(s, id, 1) else HasDepth(s, id, 0);
    }
  }

  /** An object just within 2 GiB that a packfile holds as a delta, rewritten against one of less than
      sixteen bytes: every guard and the self-check pass on the encoder's own delta, and the object
      can never be read again. `entry` is what the packfile keeps of it. */
  lemma OversizeDeltaLoses(env: Env, window: seq<byte> -> int, big: seq<byte>, half: seq<byte>, entry: seq<byte>, tiny: seq<byte>)
      returns (s: Disk, t: Oid, b: Oid, delta: seq<byte>)
    requires EnvOk(env) && |tiny| < DELTA_WIN && |half| <= MAX_PACK_OBJECT
    requires |entry| <= MAX_PACK_OBJECT && ApplyDelta(half, entry) == Ok(big) && 128 * |big| >= 127 * MAX_DECOMPRESSED
    ensures Inv(env, s) && ReadObject(env, s, t) == Ok(big) && ReadObject(env, s, b) == Ok(tiny)
    ensures s.loose == map[] && t in s.packs && s.packs[t] == Packed(big, Some(env.hash(half)))
    ensures delta == Encoded(DeltaIndex(tiny, map[]), window, big) && IndexOf(DeltaIndex(tiny, map[]), window)
    ensures Enabled(env, s, Redelta(t, b, delta)) && |delta| > MAX_DECOMPRESSED
    ensures forall l :: Read(env, Next(env, s, Redelta(t, b, delta)), t, l).Corrupt?
  {
    AppliedIsSized(half, entry);
    hide Encoded, ApplyDelta, EnvOk;
    s, t, b := BigPack(env, big, half, tiny), env.hash(big), env.hash(tiny);
    delta := Encoded(DeltaIndex(tiny, map[]), window, big);
    TinyBaseDelta(DeltaIndex(tiny, map[]), window, big);
    BigPackIsSound(env, big, half, tiny);
    assert t != b by { Differs(env, big, tiny); }
    assert Admits(s, t, b);
    hide Read, Admits;
    assert Rebuilds(env, s, t, b, delta);
    var n := RewriteStays(env, s, t, b, delta);
  }

  // ----- such an object ---------------------------------------------------------------------------

  lemma {:induction false} FieldIsShort(v: nat, n: nat)
    ensures |FieldBytes(v, n)| <= n
    decreases n
  {
    if n > 0 { FieldIsShort(v / 256, n - 1); }
  }

  /** At most eight bytes for every 16 MiB copied. */
  lemma {:induction false} CopiesAreShort(off: nat, size: nat)
    ensures MAX_COPY * |CopyOps(off, size)| <= 8 * (size + MAX_COPY)
    decreases size
  {
    if size > 0 {
      var chunk := if size < MAX_COPY then size else MAX_COPY;
      CopyOpsStep(off, size, chunk);
      CopiesAreShort(off + chunk, size - chunk);
      FieldIsShort(off, 4);
      FieldIsShort(chunk, 3);
    }
  }

  /** One gibibyte, and the entry that doubles it. */
  lemma Doubled() returns (half: seq<byte>, entry: seq<byte>)
    ensures |half| <= MAX_PACK_OBJECT && |entry| <= MAX_PACK_OBJECT
    ensures ApplyDelta(half, entry) == Ok(half + half) && 128 * |half + half| >= 127 * MAX_DECOMPRESSED
  {
    hide ApplyDelta, Run, CopyOps, SizeBytes, Fetched, Room;
    half := seq(MAX_PACK_OBJECT, _ => 0);
    var copy := CopyOps(0, |half|);
    CopyOpsRun(half, 0, |half|);
    FetchedBelowLimit(half, 0, |half|);
    assert half[0..|half|] == half;
    RunConcat(half, copy, copy);
    CopiesAreShort(0, |half|);
    RoomIsU64();
    SizeIsShort(|half|, 9, 2);
    SizeIsShort(|half + half|, 9, 2);
    entry := SizeBytes(|half|) + SizeBytes(|half + half|) + (copy + copy);
    HeaderThenOps(half, half + half, copy + copy, half + half);
  }

  lemma Differs(env: Env, a: seq<byte>, b: seq<byte>)
    requires EnvOk(env) && a != b
    ensures env.hash(a) != env.hash(b)
  {}
}
