/**
 The loose-over-packed object store and its in-place re-encoding of objects as
 deltas against other objects. What a stored file means, what the store's own
 bounded reads and chain walks compute, and its two writers.
 */
module DeltaStore {
  import opened Bytes
  import opened Options
  import opened Delta
  import opened DeltaEncoder
  import opened PackFormat

  type Oid = nat

  const MAX_CHAIN: nat := 50
  /** 2 GiB, the most a stored body may inflate to. */
  const MAX_DECOMPRESSED: nat := 0x8000_0000

  /** A loose file: raw, compressed, or a compressed delta against another object. */
  datatype File = Raw(body: seq<byte>) | Compressed(z: seq<byte>) | DeltaFile(base: Oid, z: seq<byte>)

  /** An object inside a pack: its content, and its base if the packfile holds it as a delta. */
  datatype Packed = Packed(content: seq<byte>, base: Option<Oid>)

  /** Loose files shadow packed objects. */
  datatype Disk = Disk(loose: map<Oid, File>, packs: map<Oid, Packed>)

  /** The compression library and the content hash. */
  datatype Env = Env(z: Zlib, hash: seq<byte> -> Oid)

  ghost predicate EnvOk(env: Env) {
    Sound(env.z) && forall a, b :: env.hash(a) == env.hash(b) ==> a == b
  }

  function BaseOf(s: Disk, id: Oid): Option<Oid> {
    if id in s.loose then
      if s.loose[id].DeltaFile? then Some(s.loose[id].base) else None
    else if id in s.packs then s.packs[id].base
    else None
  }

  /** On disk: a 24-byte header, and 32 more bytes for a delta's base. */
  function FileLen(f: File): nat {
    match f
    case Raw(body) => 24 + |body|
    case Compressed(z) => 24 + |z|
    case DeltaFile(_, z) => 56 + |z|
  }

  function Inflate(env: Env, z: seq<byte>): Result<seq<byte>> {
    var (c, _) :- env.z.inflate(z);
    if |c| > MAX_DECOMPRESSED then Corrupt else Ok(c)
  }

  /** The packfile reader inflates an entry to at most 1 GiB; what a delta makes of it may be 2 GiB. */
  predicate PackReads(p: Packed) {
    |p.content| <= if p.base.None? then MAX_PACK_OBJECT else Delta.MAX_OBJECT_SIZE
  }

  /** Reading with at most `left` loose delta hops still allowed. */
  function Read(env: Env, s: Disk, id: Oid, left: nat): Result<seq<byte>>
    decreases left
  {
    if id in s.loose then
      match s.loose[id]
      case Raw(body) => Ok(body)
      case Compressed(z) => Inflate(env, z)
      case DeltaFile(base, z) =>
        if left == 0 then Corrupt
        else
          var b :- Read(env, s, base, left - 1);
          var delta :- Inflate(env, z);
          ApplyDelta(b, delta)
    else if id in s.packs && PackReads(s.packs[id]) then Ok(s.packs[id].content)
    else Corrupt
  }

  function ReadObject(env: Env, s: Disk, id: Oid): Result<seq<byte>> {
    Read(env, s, id, MAX_CHAIN)
  }

  /** Hops of the chain from `id`, packed deltas included, clamped at `left`. */
  function ChainDepth(s: Disk, id: Oid, left: nat): nat
    decreases left
  {
    if left == 0 || BaseOf(s, id).None? then 0 else 1 + ChainDepth(s, BaseOf(s, id).value, left - 1)
  }

  /** Does the chain from `from` come to `target` within `left` hops? */
  predicate Meets(s: Disk, from: Oid, target: Oid, left: nat)
    decreases left
  {
    left > 0 && BaseOf(s, from).Some? &&
    (BaseOf(s, from).value == target || Meets(s, BaseOf(s, from).value, target, left - 1))
  }

  lemma InflateUndoes(env: Env, c: seq<byte>)
    requires Sound(env.z)
    ensures Inflate(env, env.z.deflate(c)) == if |c| <= MAX_DECOMPRESSED then Ok(c) else Corrupt
  {
    assert env.z.deflate(c) + [] == env.z.deflate(c);
  }

  // ----- the two writers ---------------------------------------------------------------------

  function Stored(env: Env, content: seq<byte>): File {
    var z := env.z.deflate(content);
    if |z| < |content| then Compressed(z) else Raw(content)
  }

  function Written(env: Env, s: Disk, content: seq<byte>): Disk {
    s.(loose := s.loose[env.hash(content) := Stored(env, content)])
  }

  function Rewritten(env: Env, s: Disk, target: Oid, base: Oid, delta: seq<byte>): Disk {
    s.(loose := s.loose[target := DeltaFile(base, env.z.deflate(delta))])
  }

  /** The chain checks: no self-delta, room for one more hop, no cycle. */
  predicate Admits(s: Disk, target: Oid, base: Oid) {
    target != base && ChainDepth(s, base, MAX_CHAIN) < MAX_CHAIN - 1 && !Meets(s, base, target, MAX_CHAIN)
  }

  /** The self-check: the delta rebuilds bytes that hash to the target. */
  predicate Rebuilds(env: Env, s: Disk, target: Oid, base: Oid, delta: seq<byte>) {
    && ReadObject(env, s, target).Ok? && ReadObject(env, s, base).Ok?
    && ApplyDelta(ReadObject(env, s, base).value, delta).Ok?
    && env.hash(ApplyDelta(ReadObject(env, s, base).value, delta).value) == target
  }

  predicate Shrinks(env: Env, s: Disk, target: Oid, base: Oid, delta: seq<byte>) {
    target in s.loose ==> FileLen(DeltaFile(base, env.z.deflate(delta))) < FileLen(s.loose[target])
  }

  /** A rewrite saves room exactly if its stream and the 32 bytes of the base's id are shorter than the
      body they replace, or shorter than another delta's stream. */
  lemma ShrinksIff(env: Env, s: Disk, target: Oid, base: Oid, delta: seq<byte>)
    requires target in s.loose
    ensures var n := |env.z.deflate(delta)|;
      Shrinks(env, s, target, base, delta) <==>
        match s.loose[target]
        case Raw(body) => n + 32 < |body|
        case Compressed(z) => n + 32 < |z|
        case DeltaFile(_, z) => n < |z|
  {}

  /** Lengths are machine words. */
  predicate Sized(s: Disk) {
    && (forall id :: id in s.loose && s.loose[id].Raw? ==> |s.loose[id].body| < U64)
    && (forall id :: id in s.packs ==> |s.packs[id].content| < U64)
  }

  class ObjectStore {
    const env: Env
    var loose: map<Oid, File>
    var packs: map<Oid, Packed>

    function Contents(): Disk
      reads this
    {
      Disk(loose, packs)
    }

    constructor (env: Env, packs: map<Oid, Packed>)
      ensures this.env == env && Contents() == Disk(map[], packs)
    {
      this.env, this.loose, this.packs := env, map[], packs;
    }

    method MeasureChain(start: Oid) returns (d: nat)
      ensures d == ChainDepth(Contents(), start, MAX_CHAIN)
    {
      var id := start;
      d := 0;
      while BaseOf(Contents(), id).Some?
        invariant d < MAX_CHAIN && d + ChainDepth(Contents(), id, MAX_CHAIN - d) == ChainDepth(Contents(), start, MAX_CHAIN)
        decreases MAX_CHAIN - d
      {
        d := d + 1;
        if d >= MAX_CHAIN { break; }
        id := BaseOf(Contents(), id).value;
      }
    }

    method DeltaReaches(from: Oid, target: Oid) returns (r: bool)
      ensures r == Meets(Contents(), from, target, MAX_CHAIN)
    {
      var id := from;
      for i := 0 to MAX_CHAIN
        invariant Meets(Contents(), id, target, MAX_CHAIN - i) == Meets(Contents(), from, target, MAX_CHAIN)
      {
        match BaseOf(Contents(), id)
        case Some(base) =>
          if base == target { return true; }
          id := base;
        case None => return false;
      }
      r := false;
    }

    /** The object reads back within the cap, its file is never larger than the raw one, and no
        other file is touched. */
    method WriteObject(content: seq<byte>) returns (id: Oid)
      modifies this
      ensures id == env.hash(content) && Contents() == Written(env, old(Contents()), content)
      ensures Sound(env.z) && |content| <= MAX_DECOMPRESSED ==> ReadObject(env, Contents(), id) == Ok(content)
      ensures id in loose && BaseOf(Contents(), id) == None
      ensures FileLen(loose[id]) == 24 + if |env.z.deflate(content)| < |content| then |env.z.deflate(content)| else |content|
      ensures packs == old(packs) && loose.Keys == old(loose).Keys + {id}
      ensures forall other :: other != id && other in old(loose) ==> loose[other] == old(loose)[other]
    {
      hide Inflate;
      ghost var sound := Sound(env.z);
      if sound { InflateUndoes(env, content); }
      id := env.hash(content);
      var compressed := env.z.deflate(content);
      if |compressed| < |content| {
        loose := loose[id := Compressed(compressed)];
      } else {
        loose := loose[id := Raw(content)];
      }
    }

    /** Re-store `target` as a delta against `base`, or leave the store as it is. */
    method Deltify(target: Oid, base: Oid, window: seq<byte> -> int) returns (r: Result<bool>, delta: seq<byte>)
      requires Sized(Contents())
      modifies this
      ensures Admits(old(Contents()), target, base) && ReadObject(env, old(Contents()), target).Ok? && ReadObject(env, old(Contents()), base).Ok? ==>
        delta == DeltaFor(ReadObject(env, old(Contents()), base).value, window, ReadObject(env, old(Contents()), target).value)
      ensures r == Corrupt <==> Admits(old(Contents()), target, base) && !Rebuilds(env, old(Contents()), target, base, delta)
      ensures r == Ok(true) <==>
        && Admits(old(Contents()), target, base) && Rebuilds(env, old(Contents()), target, base, delta)
        && Shrinks(env, old(Contents()), target, base, delta)
      ensures Contents() == if r == Ok(true) then Rewritten(env, old(Contents()), target, base, delta) else old(Contents())
      ensures r == Corrupt && ReadObject(env, Contents(), target).Ok? && ReadObject(env, Contents(), base).Ok? ==>
        || env.hash(ReadObject(env, Contents(), target).value) != target
        || |ReadObject(env, Contents(), target).value| > Delta.MAX_OBJECT_SIZE
        || |ReadObject(env, Contents(), base).value| > MAX_BASE
    {
      hide Read, ApplyDelta, Meets, ChainDepth, Encoded, IndexOf, DeltaFor;
      delta := [];
      if target == base { return Ok(false), delta; }
      var depth := MeasureChain(base);
      if depth >= MAX_CHAIN - 1 { return Ok(false), delta; }
      var cyclic := DeltaReaches(base, target);
      if cyclic { return Ok(false), delta; }
      var targetContent := ReadObject(env, Contents(), target);
      var baseContent := ReadObject(env, Contents(), base);
      if targetContent.Corrupt? || baseContent.Corrupt? { return Corrupt, delta; }
      ReadIsSized(env, Contents(), target, MAX_CHAIN);
      var encoded, _ := EncodeDelta(baseContent.value, window, targetContent.value);
      delta := encoded;
      var check := Apply(baseContent.value, delta);
      if check.Corrupt? || env.hash(check.value) != target { return Corrupt, delta; }
      var file := DeltaFile(base, env.z.deflate(delta));
      if target in loose && FileLen(file) >= FileLen(loose[target]) { return Ok(false), delta; }
      loose := loose[target := file];
      r := Ok(true);
    }
  }

  lemma AppliedIsSized(b: seq<byte>, delta: seq<byte>)
    requires ApplyDelta(b, delta).Ok?
    ensures |ApplyDelta(b, delta).value| <= Delta.MAX_OBJECT_SIZE
  {}

  lemma ReadIsSized(env: Env, s: Disk, id: Oid, left: nat)
    requires Sized(s) && Read(env, s, id, left).Ok?
    ensures |Read(env, s, id, left).value| < U64
  {
    hide ApplyDelta;
    if id in s.loose && s.loose[id].DeltaFile? {
      AppliedIsSized(Read(env, s, s.loose[id].base, left - 1).value, Inflate(env, s.loose[id].z).value);
    }
  }
}
