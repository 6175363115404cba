/**
 The streaming pack decoder: parse every entry in one forward pass, then resolve
 deltas in pack order against earlier objects, or against the store for a thin pack.
 */
module PackStream {
  import opened Bytes
  import opened Varints
  import opened Delta
  import opened PackFormat

  datatype GitObject = GitObject(gitType: nat, content: seq<byte>)

  /** What the decoder needs from outside: object ids, and stored bases by id. */
  datatype Outside = Outside(sha: GitObject -> Sha1, lookup: Sha1 -> Result<GitObject>)

  datatype Parsed = Parsed(start: nat, gitType: nat, base: BaseRef, payload: seq<byte>)

  const PACK_MAGIC: seq<byte> := [80, 65, 67, 75]

  function BigEndian32(v: nat): seq<byte> {
    [v / 0x100_0000 % 256, v / 0x1_0000 % 256, v / 0x100 % 256, v % 256]
  }

  function FromBigEndian32(d: seq<byte>): nat
    requires |d| == 4
  {
    (d[0] as int) * 0x100_0000 + (d[1] as int) * 0x1_0000 + (d[2] as int) * 0x100 + d[3]
  }

  lemma BigEndian32RoundTrip(v: nat)
    requires v < 0x1_0000_0000
    ensures FromBigEndian32(BigEndian32(v)) == v
  {
    DivideAgain(v);
  }

  lemma DivideAgain(v: nat)
    ensures v / 0x1_0000 == v / 0x100 / 0x100 && v / 0x100_0000 == v / 0x100 / 0x100 / 0x100
  {}

  /** The entry at `pos`: its parsed form and where the next one starts. */
  function ParseEntry(z: Zlib, pack: seq<byte>, pos: nat): Result<(Parsed, nat)> {
    if pos > |pack| then Corrupt
    else
      var (t, size, base, n) :- ReadEntryHead(pack[pos..]);
      if size > MAX_PACK_OBJECT then Corrupt
      else
        var (payload, used) :- z.inflate(pack[pos + n..]);
        if |payload| != size then Corrupt else Ok((Parsed(pos, t, base, payload), pos + n + used))
  }

  function ParseAll(z: Zlib, pack: seq<byte>, pos: nat, count: nat): Result<seq<Parsed>>
    decreases count
  {
    if count == 0 then Ok([])
    else
      var (p, next) :- ParseEntry(z, pack, pos);
      var rest :- ParseAll(z, pack, next, count - 1);
      Ok([p] + rest)
  }

  /** The object that starts at `start`, among those already resolved. */
  function ByStart(parsed: seq<Parsed>, resolved: seq<GitObject>, start: int): Result<GitObject>
    requires |resolved| <= |parsed|
    decreases |resolved|
  {
    if resolved == [] then Corrupt
    else
      var k := |resolved| - 1;
      if parsed[k].start == start then Ok(resolved[k]) else ByStart(parsed, resolved[..k], start)
  }

  /** The latest resolved object with this id. */
  function ByIdentity(sha: GitObject -> Sha1, resolved: seq<GitObject>, id: Sha1): Result<GitObject>
    decreases |resolved|
  {
    if resolved == [] then Corrupt
    else
      var k := |resolved| - 1;
      if sha(resolved[k]) == id then Ok(resolved[k]) else ByIdentity(sha, resolved[..k], id)
  }

  function BaseOf(out: Outside, parsed: seq<Parsed>, resolved: seq<GitObject>): Result<GitObject>
    requires |resolved| < |parsed|
  {
    var p := parsed[|resolved|];
    match p.base
    case NoBase => Corrupt
    case ByOffset(rel) => ByStart(parsed, resolved, p.start - rel)
    case BySha(id) =>
      var inPack := ByIdentity(out.sha, resolved, id);
      if inPack.Ok? then inPack else out.lookup(id)
  }

  /** The next object in pack order, given all earlier ones. */
  function ResolveNext(out: Outside, parsed: seq<Parsed>, resolved: seq<GitObject>): Result<GitObject>
    requires |resolved| < |parsed|
  {
    var p := parsed[|resolved|];
    if p.base.NoBase? then Ok(GitObject(p.gitType, p.payload))
    else
      var base :- BaseOf(out, parsed, resolved);
      var content :- ApplyDelta(base.content, p.payload);
      Ok(GitObject(base.gitType, content))
  }

  function ResolveAll(out: Outside, parsed: seq<Parsed>, resolved: seq<GitObject>): Result<seq<GitObject>>
    requires |resolved| <= |parsed|
    decreases |parsed| - |resolved|
  {
    if |resolved| == |parsed| then Ok(resolved)
    else
      var o :- ResolveNext(out, parsed, resolved);
      ResolveAll(out, parsed, resolved + [o])
  }

  function DecodePack(z: Zlib, out: Outside, pack: seq<byte>): Result<seq<GitObject>> {
    if |pack| < 12 || pack[..4] != PACK_MAGIC then Corrupt
    else
      var parsed :- ParseAll(z, pack, 12, FromBigEndian32(pack[8..12]));
      ResolveAll(out, parsed, [])
  }

  // ----- what a decoded pack is -----------------------------------------------------------------

  /** The latest object before the `i`th with this id. */
  ghost predicate LatestWith(sha: GitObject -> Sha1, objects: seq<GitObject>, i: nat, id: Sha1, j: nat)
    requires i <= |objects|
  {
    j < i && sha(objects[j]) == id && forall k :: j < k < i ==> sha(objects[k]) != id
  }

  ghost predicate NoneWith(sha: GitObject -> Sha1, objects: seq<GitObject>, i: nat, id: Sha1)
    requires i <= |objects|
  {
    forall k :: 0 <= k < i ==> sha(objects[k]) != id
  }

  /** `base` is what the `i`th entry is a delta of: by offset, the earlier entry that far back; by id, the
      latest earlier object of the packfile that has it, and only without one the stored object. */
  ghost predicate IsBase(out: Outside, parsed: seq<Parsed>, objects: seq<GitObject>, i: nat, base: GitObject)
    requires |objects| == |parsed| && i < |parsed|
  {
    match parsed[i].base
    case NoBase => false
    case ByOffset(rel) => exists j :: 0 <= j < i && parsed[j].start == parsed[i].start - rel && base == objects[j]
    case BySha(id) =>
      || (exists j: nat :: LatestWith(out.sha, objects, i, id, j) && base == objects[j])
      || (NoneWith(out.sha, objects, i, id) && out.lookup(id) == Ok(base))
  }

  ghost predicate IsDecoded(out: Outside, parsed: seq<Parsed>, objects: seq<GitObject>, i: nat)
    requires |objects| == |parsed| && i < |parsed|
  {
    if parsed[i].base.NoBase? then objects[i] == GitObject(parsed[i].gitType, parsed[i].payload)
    else exists base :: IsBase(out, parsed, objects, i, base) && Yields(base, parsed[i].payload, objects[i])
  }

  predicate Yields(base: GitObject, delta: seq<byte>, o: GitObject) {
    ApplyDelta(base.content, delta) == Ok(o.content) && o.gitType == base.gitType
  }

  lemma {:induction false} ByStartFinds(parsed: seq<Parsed>, objects: seq<GitObject>, i: nat, start: int, base: GitObject)
    requires InOrder(parsed) && |objects| == |parsed| && i <= |parsed|
    ensures ByStart(parsed, objects[..i], start) == Ok(base) <==>
      exists j :: 0 <= j < i && parsed[j].start == start && base == objects[j]
    decreases i
  {
    if i > 0 {
      assert objects[..i][..i - 1] == objects[..i - 1];
      ByStartFinds(parsed, objects, i - 1, start, base);
    }
  }

  lemma LatestGrows(sha: GitObject -> Sha1, objects: seq<GitObject>, i: nat, id: Sha1)
    requires 0 < i <= |objects|
    ensures NoneWith(sha, objects, i, id) <==> NoneWith(sha, objects, i - 1, id) && sha(objects[i - 1]) != id
    ensures forall j: nat :: LatestWith(sha, objects, i, id, j) <==>
      if sha(objects[i - 1]) == id then j == i - 1 else LatestWith(sha, objects, i - 1, id, j)
  {}

  lemma {:induction false} ByIdentityFinds(sha: GitObject -> Sha1, objects: seq<GitObject>, i: nat, id: Sha1)
    requires i <= |objects|
    ensures ByIdentity(sha, objects[..i], id).Corrupt? <==> NoneWith(sha, objects, i, id)
    ensures forall base :: ByIdentity(sha, objects[..i], id) == Ok(base) <==>
      exists j: nat :: LatestWith(sha, objects, i, id, j) && base == objects[j]
    decreases i
  {
    if i > 0 {
      assert objects[..i][..i - 1] == objects[..i - 1];
      ByIdentityFinds(sha, objects, i - 1, id);
      LatestGrows(sha, objects, i, id);
      hide NoneWith, LatestWith;
      if sha(objects[i - 1]) == id { assert LatestWith(sha, objects, i, id, i - 1); }
    }
  }

  lemma BaseOfFinds(out: Outside, parsed: seq<Parsed>, objects: seq<GitObject>, i: nat, base: GitObject)
    requires InOrder(parsed) && |objects| == |parsed| && i < |parsed|
    ensures BaseOf(out, parsed, objects[..i]) == Ok(base) <==> IsBase(out, parsed, objects, i, base)
  {
    hide ByStart, ByIdentity, LatestWith;
    match parsed[i].base
    case NoBase =>
    case ByOffset(rel) => ByStartFinds(parsed, objects, i, parsed[i].start - rel, base);
    case BySha(id) => ByIdentityFinds(out.sha, objects, i, id);
  }

  lemma ResolveNextIs(out: Outside, parsed: seq<Parsed>, objects: seq<GitObject>, i: nat)
    requires InOrder(parsed) && |objects| == |parsed| && i < |parsed|
    ensures ResolveNext(out, parsed, objects[..i]) == Ok(objects[i]) <==> IsDecoded(out, parsed, objects, i)
  {
    hide BaseOf, IsBase, ApplyDelta;
    forall base ensures BaseOf(out, parsed, objects[..i]) == Ok(base) <==> IsBase(out, parsed, objects, i, base) {
      BaseOfFinds(out, parsed, objects, i, base);
    }
    assert |objects[..i]| == i;
    if !parsed[i].base.NoBase? && IsDecoded(out, parsed, objects, i) {
      var base :| IsBase(out, parsed, objects, i, base) && Yields(base, parsed[i].payload, objects[i]);
      assert BaseOf(out, parsed, objects[..i]) == Ok(base);
    }
  }

  lemma {:induction false} ResolveAllIs(out: Outside, parsed: seq<Parsed>, objects: seq<GitObject>, i: nat)
    requires InOrder(parsed) && |objects| == |parsed| && i <= |parsed|
    ensures ResolveAll(out, parsed, objects[..i]) == Ok(objects) <==> forall k :: i <= k < |parsed| ==> IsDecoded(out, parsed, objects, k)
    decreases |parsed| - i
  {
    hide ResolveNext, IsDecoded;
    if i < |parsed| {
      ResolveNextIs(out, parsed, objects, i);
      assert objects[..i] + [objects[i]] == objects[..i + 1];
      ResolveAllIs(out, parsed, objects, i + 1);
      if ResolveAll(out, parsed, objects[..i]) == Ok(objects) {
        var o := ResolveNext(out, parsed, objects[..i]).value;
        ResolveAllKeeps(out, parsed, objects[..i] + [o]);
        assert objects[i] == (objects[..i] + [o])[i];
      }
    } else {
      assert objects[..i] == objects;
    }
  }

  lemma {:induction false} ResolveAllKeeps(out: Outside, parsed: seq<Parsed>, resolved: seq<GitObject>)
    requires |resolved| <= |parsed| && ResolveAll(out, parsed, resolved).Ok?
    ensures resolved <= ResolveAll(out, parsed, resolved).value && |ResolveAll(out, parsed, resolved).value| == |parsed|
    decreases |parsed| - |resolved|
  {
    hide ResolveNext;
    if |resolved| < |parsed| { ResolveAllKeeps(out, parsed, resolved + [ResolveNext(out, parsed, resolved).value]); }
  }

  /** An entry as it lies in the packfile: a head that reads, a size within 1 GiB, and a stream that inflates
      to that size; the next entry starts where the stream ends. */
  ghost predicate Lies(z: Zlib, pack: seq<byte>, p: Parsed, end: nat) {
    && p.start <= |pack| && ReadEntryHead(pack[p.start..]).Ok?
    && var (t, size, base, n) := ReadEntryHead(pack[p.start..]).value;
    && t == p.gitType && base == p.base && size == |p.payload| && size <= 0x4000_0000
    && p.start + n <= end && z.inflate(pack[p.start + n..]) == Ok((p.payload, end - (p.start + n)))
  }

  /** Entries one behind the other from `pos`. */
  ghost predicate BackToBack(z: Zlib, pack: seq<byte>, pos: nat, parsed: seq<Parsed>, ends: seq<nat>) {
    && |ends| == |parsed|
    && forall k :: 0 <= k < |parsed| ==> parsed[k].start == StartAt(pos, ends, k) && Lies(z, pack, parsed[k], ends[k])
  }

  function StartAt(pos: nat, ends: seq<nat>, k: nat): nat
    requires k <= |ends|
  {
    if k == 0 then pos else ends[k - 1]
  }

  lemma ParseEntryIff(z: Zlib, pack: seq<byte>, pos: nat, p: Parsed, next: nat)
    ensures ParseEntry(z, pack, pos) == Ok((p, next)) <==> p.start == pos && Lies(z, pack, p, next)
  {
    hide ReadEntryHead;
    if pos <= |pack| && ReadEntryHead(pack[pos..]).Ok? {
      var (t, size, base, n) := ReadEntryHead(pack[pos..]).value;
      var stream := z.inflate(pack[pos + n..]);
      if stream.Ok? {
        var (payload, used) := stream.value;
        assert stream == Ok((payload, used));
        if p.start == pos && Lies(z, pack, p, next) { assert p == Parsed(pos, t, base, payload) && next == pos + n + used; }
      }
    }
  }

  /** The first pass yields exactly the entries that lie back to back. */
  lemma {:induction false} ParsedIff(z: Zlib, pack: seq<byte>, pos: nat, count: nat, parsed: seq<Parsed>)
    ensures ParseAll(z, pack, pos, count) == Ok(parsed) <==>
      |parsed| == count && exists ends :: BackToBack(z, pack, pos, parsed, ends)
    decreases count
  {
    hide ParseEntry, Lies;
    if count == 0 {
      if |parsed| == 0 { assert BackToBack(z, pack, pos, parsed, []); }
    } else {
      if ParseAll(z, pack, pos, count) == Ok(parsed) {
        var (p, next) := ParseEntry(z, pack, pos).value;
        ParseEntryIff(z, pack, pos, p, next);
        ParsedIff(z, pack, next, count - 1, parsed[1..]);
        assert parsed[1..] == ParseAll(z, pack, next, count - 1).value;
        var ends :| BackToBack(z, pack, next, parsed[1..], ends);
        MoreBackToBack(z, pack, pos, parsed, [next] + ends);
      }
      if ends :| |parsed| == count && BackToBack(z, pack, pos, parsed, ends) {
        LessBackToBack(z, pack, pos, parsed, ends);
        ParseEntryIff(z, pack, pos, parsed[0], ends[0]);
        ParsedIff(z, pack, ends[0], count - 1, parsed[1..]);
        assert [parsed[0]] + parsed[1..] == parsed;
      }
    }
  }

  lemma MoreBackToBack(z: Zlib, pack: seq<byte>, pos: nat, parsed: seq<Parsed>, ends: seq<nat>)
    requires parsed != [] && ends != [] && parsed[0].start == pos && Lies(z, pack, parsed[0], ends[0])
    requires BackToBack(z, pack, ends[0], parsed[1..], ends[1..])
    ensures BackToBack(z, pack, pos, parsed, ends)
  {
    hide Lies;
    forall k | 0 <= k < |parsed| ensures parsed[k].start == StartAt(pos, ends, k) && Lies(z, pack, parsed[k], ends[k]) {
      if k > 0 { assert parsed[1..][k - 1] == parsed[k] && ends[1..][k - 1] == ends[k]; }
    }
  }

  lemma LessBackToBack(z: Zlib, pack: seq<byte>, pos: nat, parsed: seq<Parsed>, ends: seq<nat>)
    requires parsed != [] && BackToBack(z, pack, pos, parsed, ends)
    ensures parsed[0].start == pos && Lies(z, pack, parsed[0], ends[0])
    ensures BackToBack(z, pack, ends[0], parsed[1..], ends[1..])
  {
    hide Lies;
    var rest, ends' := parsed[1..], ends[1..];
    forall k | 0 <= k < |rest| ensures rest[k].start == StartAt(ends[0], ends', k) && Lies(z, pack, rest[k], ends'[k]) {
      assert rest[k] == parsed[k + 1] && ends'[k] == ends[k + 1];
    }
  }

  /** The decoder yields these objects exactly if the entries parse, one object each, and every one is
      what its entry says, deltas against the base their entry names. */
  lemma DecodedIff(z: Zlib, out: Outside, pack: seq<byte>, objects: seq<GitObject>)
    requires |pack| >= 12 && pack[..4] == PACK_MAGIC
    ensures DecodePack(z, out, pack) == Ok(objects) <==>
      var parsed := ParseAll(z, pack, 12, FromBigEndian32(pack[8..12]));
      && parsed.Ok? && |objects| == |parsed.value|
      && forall k :: 0 <= k < |objects| ==> IsDecoded(out, parsed.value, objects, k)
  {
    hide IsDecoded, ParseAll;
    var parsed := ParseAll(z, pack, 12, FromBigEndian32(pack[8..12]));
    if parsed.Ok? {
      ParsedInOrder(z, pack, 12, FromBigEndian32(pack[8..12]));
      if |objects| == |parsed.value| {
        ResolveAllIs(out, parsed.value, objects, 0);
        assert objects[..0] == [];
      }
      if ResolveAll(out, parsed.value, []).Ok? { ResolveAllKeeps(out, parsed.value, []); }
    }
  }

  /** A thin pack: one delta by id, its base not in it, decodes against the stored object. */
  lemma ThinPackDecodes(z: Zlib, out: Outside, version: seq<byte>, sha: Sha1, delta: seq<byte>, rest: seq<byte>)
    requires Sound(z) && |version| == 4 && |sha| == 20 && |delta| <= 0x4000_0000
    ensures DecodePack(z, out, [80, 65, 67, 75] + version + [0, 0, 0, 1] + (HeaderBytes(7, |delta|) + sha + (z.deflate(delta) + rest))) ==
      match out.lookup(sha)
      case Corrupt => Corrupt
      case Ok(base) =>
        match ApplyDelta(base.content, delta)
        case Corrupt => Corrupt
        case Ok(content) => Ok([GitObject(base.gitType, content)])
  {
    hide ReadEntryHead, HeaderBytes, ApplyDelta;
    var h, s := HeaderBytes(7, |delta|) + sha, z.deflate(delta) + rest;
    var pack := [80, 65, 67, 75] + version + [0, 0, 0, 1] + (h + s);
    assert pack[..4] == PACK_MAGIC && pack[8..12] == [0, 0, 0, 1];
    assert pack[12..] == h + s && pack[12 + |h|..] == s;
    RefHeadReadsBack(|delta|, sha, s);
    var p, next := Parsed(12, 7, BySha(sha), delta), 12 + |h| + |z.deflate(delta)|;
    assert ParseEntry(z, pack, 12) == Ok((p, next));
    ParseNothing(z, pack, next);
    ParseAllStep(z, pack, 12, 1, []);
    assert ParseAll(z, pack, 12, 1) == Ok([p]) by { assert [p] + [] == [p]; }
    assert FromBigEndian32([0, 0, 0, 1]) == 1;
    hide ParseAll, ParseEntry;
    OneByIdResolves(out, p);
  }

  lemma OneByIdResolves(out: Outside, p: Parsed)
    requires p.base.BySha?
    ensures ResolveAll(out, [p], []) ==
      match out.lookup(p.base.sha)
      case Corrupt => Corrupt
      case Ok(base) =>
        match ApplyDelta(base.content, p.payload)
        case Corrupt => Corrupt
        case Ok(content) => Ok([GitObject(base.gitType, content)])
  {
    hide ApplyDelta, ResolveNext;
    assert ByIdentity(out.sha, [], p.base.sha).Corrupt?;
    assert BaseOf(out, [p], []) == out.lookup(p.base.sha);
    var next := OneByIdNext(out, p);
    if next.Ok? {
      assert [] + [next.value] == [next.value];
      assert ResolveAll(out, [p], [next.value]) == Ok([next.value]);
    }
  }

  lemma OneByIdNext(out: Outside, p: Parsed) returns (next: Result<GitObject>)
    requires p.base.BySha?
    ensures next == ResolveNext(out, [p], [])
    ensures next ==
      match out.lookup(p.base.sha)
      case Corrupt => Corrupt
      case Ok(base) =>
        match ApplyDelta(base.content, p.payload)
        case Corrupt => Corrupt
        case Ok(content) => Ok(GitObject(base.gitType, content))
  {
    hide ApplyDelta;
    next := ResolveNext(out, [p], []);
  }

  // ----- the two passes as the decoder runs them -------------------------------------------

  /** Entries parsed so far, completed by the rest. */
  function Appended(done: seq<Parsed>, r: Result<seq<Parsed>>): Result<seq<Parsed>> {
    match r
    case Ok(rest) => Ok(done + rest)
    case Corrupt => Corrupt
  }

  lemma ParseAllStep(z: Zlib, pack: seq<byte>, pos: nat, count: nat, done: seq<Parsed>)
    requires count > 0
    ensures ParseEntry(z, pack, pos).Corrupt? ==> ParseAll(z, pack, pos, count).Corrupt?
    ensures ParseEntry(z, pack, pos).Ok? ==>
      var (p, next) := ParseEntry(z, pack, pos).value;
      Appended(done, ParseAll(z, pack, pos, count)) == Appended(done + [p], ParseAll(z, pack, next, count - 1))
  {
    hide ParseEntry;
    if ParseEntry(z, pack, pos).Ok? {
      var (p, next) := ParseEntry(z, pack, pos).value;
      var rest := ParseAll(z, pack, next, count - 1);
      if rest.Ok? { assert done + ([p] + rest.value) == (done + [p]) + rest.value; }
    }
  }

  method ParseEntries(z: Zlib, pack: seq<byte>, count: nat) returns (r: Result<seq<Parsed>>)
    requires |pack| >= 12
    ensures r == ParseAll(z, pack, 12, count)
  {
    hide ParseAll;
    ghost var want := ParseAll(z, pack, 12, count);
    assert want.Ok? ==> [] + want.value == want.value;
    var parsed: seq<Parsed>, pos: nat := [], 12;
    for i := 0 to count
      invariant want == Appended(parsed, ParseAll(z, pack, pos, count - i))
    {
      ParseAllStep(z, pack, pos, count - i, parsed);
      if pos > |pack| { return Corrupt; }
      var head := ReadEntryHead(pack[pos..]);
      if head.Corrupt? || head.value.1 > MAX_PACK_OBJECT { return Corrupt; }
      var (t, size, base, n) := head.value;
      var stream := z.inflate(pack[pos + n..]);
      if stream.Corrupt? || |stream.value.0| != size { return Corrupt; }
      parsed := parsed + [Parsed(pos, t, base, stream.value.0)];
      pos := pos + n + stream.value.1;
    }
    ParseNothing(z, pack, pos);
    assert parsed + [] == parsed;
    r := Ok(parsed);
  }

  lemma ParseNothing(z: Zlib, pack: seq<byte>, pos: nat)
    ensures ParseAll(z, pack, pos, 0) == Ok([])
  {}

  lemma ParseEntryAdvances(z: Zlib, pack: seq<byte>, pos: nat)
    requires ParseEntry(z, pack, pos).Ok?
    ensures ParseEntry(z, pack, pos).value.0.start == pos < ParseEntry(z, pack, pos).value.1
  {
    hide ReadEntryHead;
    var (_, _, _, n) := ReadEntryHead(pack[pos..]).value;
    var used: nat := z.inflate(pack[pos + n..]).value.1;
    assert n > 0;
  }

  ghost predicate InOrder(parsed: seq<Parsed>) {
    forall i, j :: 0 <= i < j < |parsed| ==> parsed[i].start < parsed[j].start
  }

  ghost predicate NoneBefore(parsed: seq<Parsed>, pos: nat) {
    forall i :: 0 <= i < |parsed| ==> pos <= parsed[i].start
  }

  lemma {:induction false} ParsedInOrder(z: Zlib, pack: seq<byte>, pos: nat, count: nat)
    requires ParseAll(z, pack, pos, count).Ok?
    ensures InOrder(ParseAll(z, pack, pos, count).value) && NoneBefore(ParseAll(z, pack, pos, count).value, pos)
    decreases count
  {
    hide ParseEntry;
    if count > 0 {
      ParseEntryAdvances(z, pack, pos);
      var (p, next) := ParseEntry(z, pack, pos).value;
      ParsedInOrder(z, pack, next, count - 1);
      OneMoreInFront(p, ParseAll(z, pack, next, count - 1).value, next);
    }
  }

  lemma OneMoreInFront(p: Parsed, rest: seq<Parsed>, next: nat)
    requires p.start < next && InOrder(rest) && NoneBefore(rest, next)
    ensures InOrder([p] + rest) && NoneBefore([p] + rest, p.start)
  {}

  /** The decoder's table from pack offset to entry number. */
  ghost predicate StartTable(parsed: seq<Parsed>, starts: map<nat, nat>) {
    && (forall i :: 0 <= i < |parsed| ==> parsed[i].start in starts && starts[parsed[i].start] == i)
    && (forall s :: s in starts ==> starts[s] < |parsed| && parsed[starts[s]].start == s)
  }

  /** The table from object id to the latest entry that has it. */
  ghost predicate IdTable(sha: GitObject -> Sha1, resolved: seq<GitObject>, ids: map<Sha1, nat>) {
    forall id :: ByIdentity(sha, resolved, id) ==
      if id in ids && ids[id] < |resolved| then Ok(resolved[ids[id]]) else Corrupt
  }

  lemma {:induction false} StartTableFinds(parsed: seq<Parsed>, resolved: seq<GitObject>, starts: map<nat, nat>, start: nat)
    requires |resolved| <= |parsed| && StartTable(parsed, starts)
    ensures ByStart(parsed, resolved, start) ==
      if start in starts && starts[start] < |resolved| then Ok(resolved[starts[start]]) else Corrupt
    decreases |resolved|
  {
    if resolved != [] { StartTableFinds(parsed, resolved[..|resolved| - 1], starts, start); }
  }

  lemma {:induction false} NegativeStartMissing(parsed: seq<Parsed>, resolved: seq<GitObject>, start: int)
    requires |resolved| <= |parsed| && start < 0
    ensures ByStart(parsed, resolved, start).Corrupt?
    decreases |resolved|
  {
    if resolved != [] { NegativeStartMissing(parsed, resolved[..|resolved| - 1], start); }
  }

  lemma IdTableGrows(sha: GitObject -> Sha1, resolved: seq<GitObject>, ids: map<Sha1, nat>, o: GitObject)
    requires IdTable(sha, resolved, ids)
    requires forall id :: id in ids ==> ids[id] < |resolved|
    ensures IdTable(sha, resolved + [o], ids[sha(o) := |resolved|])
  {
    var more, ids' := resolved + [o], ids[sha(o) := |resolved|];
    forall id
      ensures ByIdentity(sha, more, id) == if id in ids' && ids'[id] < |more| then Ok(more[ids'[id]]) else Corrupt
    {
      assert more[..|more| - 1] == resolved;
    }
  }

  method BuildStarts(parsed: seq<Parsed>) returns (starts: map<nat, nat>)
    requires InOrder(parsed)
    ensures StartTable(parsed, starts)
  {
    starts := map[];
    for i := 0 to |parsed|
      invariant StartTable(parsed[..i], starts)
    {
      assert parsed[..i + 1] == parsed[..i] + [parsed[i]];
      starts := starts[parsed[i].start := i];
    }
    assert parsed[..|parsed|] == parsed;
  }

  method FindBase(out: Outside, parsed: seq<Parsed>, resolved: seq<GitObject>,
                  starts: map<nat, nat>, ids: map<Sha1, nat>) returns (r: Result<GitObject>)
    requires |resolved| < |parsed| && StartTable(parsed, starts) && IdTable(out.sha, resolved, ids)
    requires forall id :: id in ids ==> ids[id] < |resolved|
    ensures r == BaseOf(out, parsed, resolved)
  {
    hide ByStart, ByIdentity, StartTable;
    var p := parsed[|resolved|];
    match p.base {
      case NoBase => return Corrupt;
      case ByOffset(rel) =>
        if rel > p.start {
          NegativeStartMissing(parsed, resolved, p.start - rel);
          return Corrupt;
        }
        var start: nat := p.start - rel;
        StartTableFinds(parsed, resolved, starts, start);
        if start !in starts || starts[start] >= |resolved| { return Corrupt; }
        return Ok(resolved[starts[start]]);
      case BySha(id) =>
        if id in ids { return Ok(resolved[ids[id]]); }
        return out.lookup(id);
    }
  }

  method ResolveEntries(out: Outside, parsed: seq<Parsed>) returns (r: Result<seq<GitObject>>)
    requires InOrder(parsed)
    ensures r == ResolveAll(out, parsed, [])
  {
    hide ApplyDelta;
    var starts := BuildStarts(parsed);
    var resolved: seq<GitObject>, ids: map<Sha1, nat> := [], map[];
    while |resolved| < |parsed|
      invariant |resolved| <= |parsed|
      invariant IdTable(out.sha, resolved, ids) && forall id :: id in ids ==> ids[id] < |resolved|
      invariant ResolveAll(out, parsed, []) == ResolveAll(out, parsed, resolved)
      decreases |parsed| - |resolved|
    {
      var p := parsed[|resolved|];
      var o := GitObject(p.gitType, p.payload);
      if !p.base.NoBase? {
        var base := FindBase(out, parsed, resolved, starts, ids);
        if base.Corrupt? { return Corrupt; }
        var content := Apply(base.value.content, p.payload);
        if content.Corrupt? { return Corrupt; }
        o := GitObject(base.value.gitType, content.value);
      }
      IdTableGrows(out.sha, resolved, ids, o);
      ids := ids[out.sha(o) := |resolved|];
      resolved := resolved + [o];
    }
    r := Ok(resolved);
  }

  /** The decoder, on any bytes whatever, computes `DecodePack`. */
  method DecodePackObjects(z: Zlib, out: Outside, pack: seq<byte>) returns (r: Result<seq<GitObject>>)
    ensures r == DecodePack(z, out, pack)
  {
    hide ParseAll, ResolveAll;
    if |pack| < 12 || pack[..4] != PACK_MAGIC { return Corrupt; }
    var count := FromBigEndian32(pack[8..12]);
    var parsed := ParseEntries(z, pack, count);
    if parsed.Corrupt? { return Corrupt; }
    ParsedInOrder(z, pack, 12, count);
    r := ResolveEntries(out, parsed.value);
  }
}
