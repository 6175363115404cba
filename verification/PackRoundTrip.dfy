/**
 Laying out a pack, and reading it back: by seeking to each returned offset, and by
 streaming the whole file.
 */
module PackRoundTrip {
  import opened Bytes
  import opened Varints
  import opened Delta
  import opened PackFormat
  import opened PackStream
  import opened PackWriter

  // ----- writing -----------------------------------------------------------------------------

  lemma GrownPackKeepsEntry(z: Zlib, pack: seq<byte>, more: seq<byte>, offset: nat, e: Entry)
    requires WellFormed(e) && EntryAt(z, pack, offset, e)
    ensures EntryAt(z, pack + more, offset, e)
  {
    hide EntryBytes;
    var n := |EntryBytes(z, e)|;
    assert (pack + more)[offset..offset + n] == pack[offset..offset + n];
  }

  lemma {:induction false} StartsIncrease(z: Zlib, objects: seq<PackObject>, order: seq<nat>, chosen: seq<Choice>,
                     offsets: seq<nat>, starts: seq<nat>, pack: seq<byte>, upTo: nat, j: nat, k: nat)
    requires Laid(z, objects, order, chosen, offsets, starts, pack, upTo) && j < k <= upTo
    ensures starts[j] < starts[k]
    decreases k - j
  {
    assert LaidAt(z, objects, order, chosen, offsets, starts, pack, k - 1);
    if j < k - 1 { StartsIncrease(z, objects, order, chosen, offsets, starts, pack, upTo, j, k - 1); }
  }

  /** One more entry behind the ones already laid out. */
  lemma LaidExtends(z: Zlib, objects: seq<PackObject>, order: seq<nat>, chosen: seq<Choice>, depth: seq<nat>,
                    offsets: seq<nat>, starts: seq<nat>, pack: seq<byte>, k: nat, bytes: seq<byte>)
    requires Selected(objects, order, chosen, depth, |order|) && k < |order|
    requires Laid(z, objects, order, chosen, offsets, starts, pack, k) && starts[k] == |pack|
    requires var offsets' := offsets[order[k] := |pack|];
      WellFormed(EntryOf(objects, chosen, offsets', order[k])) &&
      bytes == EntryBytes(z, EntryOf(objects, chosen, offsets', order[k]))
    ensures Laid(z, objects, order, chosen, offsets[order[k] := |pack|], starts + [|pack| + |bytes|], pack + bytes, k + 1)
  {
    hide EntryBytes, ApplyDelta;
    var offsets', starts', pack' := offsets[order[k] := |pack|], starts + [|pack| + |bytes|], pack + bytes;
    forall j | 0 <= j < k + 1
      ensures LaidAt(z, objects, order, chosen, offsets', starts', pack', j)
    {
      var i := order[j];
      if j < k {
        assert LaidAt(z, objects, order, chosen, offsets, starts, pack, j);
        assert Chosen(objects, order, chosen, depth, j);
        if chosen[i].Against? {
          assert chosen[i].base in order[..j];
          assert chosen[i].base != order[k];
        }
        var e := EntryOf(objects, chosen, offsets, i);
        assert EntryOf(objects, chosen, offsets', i) == e;
        GrownPackKeepsEntry(z, pack, bytes, starts[j], e);
      } else {
        assert pack'[|pack|..|pack| + |bytes|] == bytes;
      }
    }
  }

  /** The bytes of one object behind offset `offset`. */
  method AppendEntry(z: Zlib, pack: seq<byte>, e: Entry) returns (more: seq<byte>)
    requires WellFormed(e)
    ensures more == pack + EntryBytes(z, e)
  {
    hide HeaderBytes, OfsBytes;
    match e {
      case OfsDelta(rel, delta) =>
        more := WriteObjHeader(pack, OFS_DELTA, |delta|);
        more := WriteOfsVarint(more, rel);
        more := more + z.deflate(delta);
        assert more == pack + (HeaderBytes(OFS_DELTA, |delta|) + (OfsBytes(rel) + z.deflate(delta)));
      case Full(t, content) =>
        more := WriteObjHeader(pack, t, |content|);
        more := more + z.deflate(content);
        assert more == pack + (HeaderBytes(t, |content|) + z.deflate(content));
    }
  }

  const LARGE_OFFSET: nat := 0x8000_0000

  function PackHeader(n: nat): (h: seq<byte>)
    ensures |h| == 12
  {
    PACK_MAGIC + BigEndian32(2) + BigEndian32(n % 0x1_0000_0000)
  }

  /** Room for the first `k` objects of the order, compressed whole, with twenty bytes for
      each header and base offset. */
  function Budget(z: Zlib, objects: seq<PackObject>, order: seq<nat>, k: nat): nat
    requires k <= |order| && forall j :: 0 <= j < |order| ==> order[j] < |objects|
  {
    if k == 0 then 12 else Budget(z, objects, order, k - 1) + |z.deflate(objects[order[k - 1]].content)| + 20
  }

  lemma EntryWithinBudget(z: Zlib, objects: seq<PackObject>, chosen: seq<Choice>, offsets: seq<nat>, i: nat)
    requires i < |objects| == |chosen| == |offsets| && Saves(z, objects, chosen)
    requires WellFormed(EntryOf(objects, chosen, offsets, i))
    ensures |EntryBytes(z, EntryOf(objects, chosen, offsets, i))| <= |z.deflate(objects[i].content)| + 20
  {
    hide HeaderBytes, OfsBytes;
    match EntryOf(objects, chosen, offsets, i)
    case Full(t, content) => HeaderIsShort(t, |content|);
    case OfsDelta(rel, delta) =>
      HeaderIsShort(OFS_DELTA, |delta|);
      OfsFitsScratch(rel);
  }

  /** Lays the entries out one behind the other, and fails exactly at the first that would start
      at 2^31 or beyond. `laid` and `placed` are what was laid out up to there. */
  method LayOut(z: Zlib, objects: seq<PackObject>, order: seq<nat>, chosen: seq<Choice>, ghost depth: seq<nat>)
      returns (r: Result<(seq<byte>, seq<nat>)>, ghost starts: seq<nat>, ghost laid: seq<byte>, ghost placed: seq<nat>)
    requires Packable(objects) && Selected(objects, order, chosen, depth, |order|) && Saves(z, objects, chosen)
    ensures |starts| > 0 && Laid(z, objects, order, chosen, placed, starts, laid, |starts| - 1)
    ensures starts[|starts| - 1] == |laid| <= Budget(z, objects, order, |starts| - 1)
    ensures forall k :: 0 <= k < |starts| - 1 ==> starts[k] < LARGE_OFFSET
    ensures |laid| >= 12 && PackHeader(|objects|) == laid[..12]
    ensures if |starts| - 1 == |order| then r == Ok((laid, placed)) && |objects| <= LARGE_OFFSET
            else r == Corrupt && |laid| >= LARGE_OFFSET
  {
    hide EntryBytes, ApplyDelta, PackHeader, LaidAt, Chosen, Saves;
    var pack := PackHeader(|objects|);
    var offsets: seq<nat> := seq(|objects|, _ => 0);
    starts, laid, placed := [12], pack, offsets;
    for k := 0 to |order|
      invariant Laid(z, objects, order, chosen, offsets, starts, pack, k) && starts[k] == |pack| <= Budget(z, objects, order, k)
      invariant |pack| >= 12 + k && k <= LARGE_OFFSET && laid == pack && placed == offsets
      invariant forall j :: 0 <= j < k ==> starts[j] < LARGE_OFFSET
      invariant PackHeader(|objects|) == pack[..12]
    {
      var i := order[k];
      ghost var before := offsets;
      offsets := offsets[i := |pack|];
      if |pack| >= LARGE_OFFSET {
        r := Corrupt;
        return;
      }
      ghost var prefix := pack;
      EntryIsWellFormed(z, objects, order, chosen, depth, before, starts, pack, k);
      var e := EntryOf(objects, chosen, offsets, i);
      EntryWithinBudget(z, objects, chosen, offsets, i);
      pack := AppendEntry(z, pack, e);
      LaidExtends(z, objects, order, chosen, depth, before, starts, prefix, k, EntryBytes(z, e));
      starts := starts + [|pack|];
      laid, placed := pack, offsets;
      assert pack[..12] == prefix[..12];
    }
    r := Ok((pack, offsets));
  }

  lemma EntryIsWellFormed(z: Zlib, objects: seq<PackObject>, order: seq<nat>, chosen: seq<Choice>, depth: seq<nat>,
                          offsets: seq<nat>, starts: seq<nat>, pack: seq<byte>, k: nat)
    requires Packable(objects) && Selected(objects, order, chosen, depth, |order|) && k < |order|
    requires Laid(z, objects, order, chosen, offsets, starts, pack, k) && starts[k] == |pack| < LARGE_OFFSET
    ensures WellFormed(EntryOf(objects, chosen, offsets[order[k] := |pack|], order[k]))
  {
    hide ApplyDelta, EntryBytes;
    assert Chosen(objects, order, chosen, depth, k);
  }

  // ----- reading by offset -----------------------------------------------------------------------

  /** Every object is within the readers' 1 GiB inflation limit. */
  predicate Inflatable(objects: seq<PackObject>) {
    forall i :: 0 <= i < |objects| ==> |objects[i].content| <= MAX_PACK_OBJECT
  }

  /** A chain of `depth[i]` hops reads back exactly when the reader's cap allows it. */
  lemma {:induction false} SeekReadsBack(z: Zlib, bySha: map<Sha1, nat>, objects: seq<PackObject>, order: seq<nat>,
      chosen: seq<Choice>, depth: seq<nat>, offsets: seq<nat>, starts: seq<nat>, pack: seq<byte>, k: nat, d: nat)
    requires Sound(z) && Packable(objects) && Inflatable(objects)
    requires Selected(objects, order, chosen, depth, |order|)
    requires Laid(z, objects, order, chosen, offsets, starts, pack, |order|) && k < |order|
    ensures ReadAt(z, bySha, pack, offsets[order[k]], d) ==
      if d + depth[order[k]] <= MAX_DELTA_DEPTH then Ok(objects[order[k]].content) else Corrupt
    decreases k
  {
    hide EntryBytes, ApplyDelta, EntryAt, ReadHeader, ReadOfs, InflateCapped;
    var i := order[k];
    assert LaidAt(z, objects, order, chosen, offsets, starts, pack, k) && Chosen(objects, order, chosen, depth, k);
    if d <= MAX_DELTA_DEPTH {
      SeekOne(z, bySha, objects, order, chosen, depth, offsets, starts, pack, k, d);
      if chosen[i].Against? {
        var j := PositionOf(order, k, chosen[i].base);
        SeekReadsBack(z, bySha, objects, order, chosen, depth, offsets, starts, pack, j, d + 1);
      }
    }
  }

  lemma PositionOf(order: seq<nat>, k: nat, b: nat) returns (j: nat)
    requires k <= |order| && b in order[..k]
    ensures j < k && order[j] == b
  {
    j :| 0 <= j < k && order[..k][j] == b;
  }

  /** One step of the seeking reader, in terms of what the writer chose. */
  lemma SeekOne(z: Zlib, bySha: map<Sha1, nat>, objects: seq<PackObject>, order: seq<nat>,
      chosen: seq<Choice>, depth: seq<nat>, offsets: seq<nat>, starts: seq<nat>, pack: seq<byte>, k: nat, d: nat)
    requires Sound(z) && Inflatable(objects) && d <= MAX_DELTA_DEPTH
    requires Selected(objects, order, chosen, depth, |order|)
    requires Laid(z, objects, order, chosen, offsets, starts, pack, |order|) && k < |order|
    ensures var i := order[k];
      ReadAt(z, bySha, pack, offsets[i], d) ==
      match chosen[i]
      case Whole => Ok(objects[i].content)
      case Against(b, delta) =>
        var base := if b < |offsets| then ReadAt(z, bySha, pack, offsets[b], d + 1) else Corrupt;
        if base.Ok? then ApplyDelta(base.value, delta) else Corrupt
  {
    hide EntryBytes, ApplyDelta, EntryAt, ReadAt;
    var i := order[k];
    assert LaidAt(z, objects, order, chosen, offsets, starts, pack, k) && Chosen(objects, order, chosen, depth, k);
    var e := EntryOf(objects, chosen, offsets, i);
    if chosen[i].Whole? {
      ReadsFull(z, bySha, pack, offsets[i], d, e);
    } else {
      var b := chosen[i].base;
      var j := PositionOf(order, k, b);
      StartsIncrease(z, objects, order, chosen, offsets, starts, pack, |order|, j, k);
      assert LaidAt(z, objects, order, chosen, offsets, starts, pack, j);
      ReadsDelta(z, bySha, pack, offsets[i], d, e);
    }
  }

  // ----- reading as a stream -----------------------------------------------------------------------

  function ParsedOf(objects: seq<PackObject>, chosen: seq<Choice>, offsets: seq<nat>, i: nat): Parsed
    requires i < |objects| == |chosen| == |offsets|
  {
    var e := EntryOf(objects, chosen, offsets, i);
    match e
    case Full(t, content) => Parsed(offsets[i], t, NoBase, content)
    case OfsDelta(rel, delta) => Parsed(offsets[i], OFS_DELTA, ByOffset(rel), delta)
  }

  lemma ParsesEntry(z: Zlib, pack: seq<byte>, pos: nat, e: Entry)
    requires Sound(z) && WellFormed(e) && EntryAt(z, pack, pos, e) && |Payload(e)| <= MAX_PACK_OBJECT
    ensures ParseEntry(z, pack, pos) ==
      Ok((match e
          case Full(t, content) => Parsed(pos, t, NoBase, content)
          case OfsDelta(rel, delta) => Parsed(pos, OFS_DELTA, ByOffset(rel), delta),
          pos + |EntryBytes(z, e)|))
  {
    hide ReadEntryHead, HeadBytes, EntryBytes;
    var rest := EntryPrefix(z, pack, pos, e);
    var h, s := HeadBytes(e), z.deflate(Payload(e)) + rest;
    HeadReadsBack(e, s);
    assert pack[pos..] == h + s;
    assert pack[pos + |h|..] == pack[pos..][|h|..] == s;
    EntryIsHeadThenStream(z, e);
  }

  /** The parsed form of the order from position `k` on. */
  function ParsedFrom(objects: seq<PackObject>, order: seq<nat>, chosen: seq<Choice>, offsets: seq<nat>, k: nat): (r: seq<Parsed>)
    requires |chosen| == |offsets| == |objects| && k <= |order| && forall j :: 0 <= j < |order| ==> order[j] < |objects|
    ensures |r| == |order| - k
    ensures forall j :: k <= j < |order| ==> r[j - k] == ParsedOf(objects, chosen, offsets, order[j])
    decreases |order| - k
  {
    if k == |order| then []
    else [ParsedOf(objects, chosen, offsets, order[k])] + ParsedFrom(objects, order, chosen, offsets, k + 1)
  }

  lemma {:induction false} StreamParses(z: Zlib, objects: seq<PackObject>, order: seq<nat>, chosen: seq<Choice>,
      depth: seq<nat>, offsets: seq<nat>, starts: seq<nat>, pack: seq<byte>, k: nat)
    requires Sound(z) && Inflatable(objects) && Selected(objects, order, chosen, depth, |order|)
    requires Laid(z, objects, order, chosen, offsets, starts, pack, |order|) && k <= |order|
    ensures ParseAll(z, pack, starts[k], |order| - k) == Ok(ParsedFrom(objects, order, chosen, offsets, k))
    decreases |order| - k
  {
    hide ParseEntry, EntryBytes, EntryAt, ApplyDelta;
    if k < |order| {
      assert LaidAt(z, objects, order, chosen, offsets, starts, pack, k) && Chosen(objects, order, chosen, depth, k);
      ParsesEntry(z, pack, starts[k], EntryOf(objects, chosen, offsets, order[k]));
      StreamParses(z, objects, order, chosen, depth, offsets, starts, pack, k + 1);
    }
  }

  function ObjectOf(o: PackObject): GitObject {
    GitObject(o.gitType, o.content)
  }

  /** The objects in write order. */
  function Contents(objects: seq<PackObject>, order: seq<nat>): (r: seq<GitObject>)
    requires forall j :: 0 <= j < |order| ==> order[j] < |objects|
    ensures |r| == |order| && forall j :: 0 <= j < |order| ==> r[j] == ObjectOf(objects[order[j]])
  {
    seq(|order|, j requires 0 <= j < |order| => ObjectOf(objects[order[j]]))
  }

  /** An earlier object is found by the offset it starts at. */
  lemma {:induction false} FindsByStart(parsed: seq<Parsed>, resolved: seq<GitObject>, j: nat)
    requires |resolved| <= |parsed| && InOrder(parsed) && j < |resolved|
    ensures ByStart(parsed, resolved, parsed[j].start) == Ok(resolved[j])
    decreases |resolved|
  {
    if j < |resolved| - 1 { FindsByStart(parsed, resolved[..|resolved| - 1], j); }
  }

  lemma ResolvesOne(z: Zlib, out: Outside, objects: seq<PackObject>, order: seq<nat>, chosen: seq<Choice>,
      depth: seq<nat>, offsets: seq<nat>, starts: seq<nat>, pack: seq<byte>, k: nat)
    requires Selected(objects, order, chosen, depth, |order|)
    requires Laid(z, objects, order, chosen, offsets, starts, pack, |order|) && k < |order|
    requires InOrder(ParsedFrom(objects, order, chosen, offsets, 0))
    ensures ResolveNext(out, ParsedFrom(objects, order, chosen, offsets, 0), Contents(objects, order)[..k]) ==
      Ok(ObjectOf(objects[order[k]]))
  {
    hide ApplyDelta, EntryBytes, ByStart, EntryAt;
    var parsed, resolved, i := ParsedFrom(objects, order, chosen, offsets, 0), Contents(objects, order)[..k], order[k];
    assert parsed[k] == ParsedOf(objects, chosen, offsets, i);
    assert Chosen(objects, order, chosen, depth, k);
    if chosen[i].Against? {
      var j := PositionOf(order, k, chosen[i].base);
      StartsIncrease(z, objects, order, chosen, offsets, starts, pack, |order|, j, k);
      assert LaidAt(z, objects, order, chosen, offsets, starts, pack, j);
      assert LaidAt(z, objects, order, chosen, offsets, starts, pack, k);
      assert parsed[j] == ParsedOf(objects, chosen, offsets, order[j]);
      assert parsed[j].start == parsed[k].start - parsed[k].base.rel;
      FindsByStart(parsed, resolved, j);
    }
  }

  lemma {:induction false} StreamResolves(z: Zlib, out: Outside, objects: seq<PackObject>, order: seq<nat>, chosen: seq<Choice>,
      depth: seq<nat>, offsets: seq<nat>, starts: seq<nat>, pack: seq<byte>, k: nat)
    requires Selected(objects, order, chosen, depth, |order|)
    requires Laid(z, objects, order, chosen, offsets, starts, pack, |order|) && k <= |order|
    requires InOrder(ParsedFrom(objects, order, chosen, offsets, 0))
    ensures ResolveAll(out, ParsedFrom(objects, order, chosen, offsets, 0), Contents(objects, order)[..k]) ==
      Ok(Contents(objects, order))
    decreases |order| - k
  {
    hide ResolveNext, EntryBytes, ApplyDelta, EntryAt, Laid, Selected;
    StreamStarts(z, objects, order, chosen, depth, offsets, starts, pack);
    var all := Contents(objects, order);
    if k < |order| {
      ResolvesOne(z, out, objects, order, chosen, depth, offsets, starts, pack, k);
      assert all[..k] + [all[k]] == all[..k + 1];
      StreamResolves(z, out, objects, order, chosen, depth, offsets, starts, pack, k + 1);
    } else {
      assert all[..k] == all;
    }
  }

  /** The whole stream decodes to the objects in write order. */
  lemma StreamReadsBack(z: Zlib, out: Outside, objects: seq<PackObject>, order: seq<nat>, chosen: seq<Choice>,
      depth: seq<nat>, offsets: seq<nat>, starts: seq<nat>, pack: seq<byte>)
    requires Sound(z) && Inflatable(objects) && Selected(objects, order, chosen, depth, |order|)
    requires Laid(z, objects, order, chosen, offsets, starts, pack, |order|)
    requires |pack| >= 12 && pack[..12] == PackHeader(|objects|) && |objects| <= LARGE_OFFSET
    ensures DecodePack(z, out, pack) == Ok(Contents(objects, order))
  {
    hide ParseAll, ResolveAll, Laid, Selected, BigEndian32, FromBigEndian32;
    StreamStarts(z, objects, order, chosen, depth, offsets, starts, pack);
    StreamParses(z, objects, order, chosen, depth, offsets, starts, pack, 0);
    ParsedInOrder(z, pack, 12, |order|);
    StreamResolves(z, out, objects, order, chosen, depth, offsets, starts, pack, 0);
    assert Contents(objects, order)[..0] == [];
    HeaderReadsBack(|objects|, pack);
  }

  lemma StreamStarts(z: Zlib, objects: seq<PackObject>, order: seq<nat>, chosen: seq<Choice>,
      depth: seq<nat>, offsets: seq<nat>, starts: seq<nat>, pack: seq<byte>)
    requires Selected(objects, order, chosen, depth, |order|)
    requires Laid(z, objects, order, chosen, offsets, starts, pack, |order|)
    ensures |order| == |objects| == |chosen| == |offsets| && |starts| == |order| + 1 && starts[0] == 12
    ensures forall j :: 0 <= j < |order| ==> order[j] < |objects|
  {
    hide LaidAt, Chosen;
  }

  lemma HeaderReadsBack(n: nat, pack: seq<byte>)
    requires |pack| >= 12 && pack[..12] == PackHeader(n) && n <= LARGE_OFFSET
    ensures pack[..4] == PACK_MAGIC && FromBigEndian32(pack[8..12]) == n
  {
    BigEndian32RoundTrip(n);
    hide BigEndian32, FromBigEndian32;
    assert pack[..4] == pack[..12][..4] == PACK_MAGIC;
    assert pack[8..12] == pack[..12][8..12] == BigEndian32(n);
  }

  // ----- the writer ------------------------------------------------------------------------------------

  /** Both readers recover every object from the packfile. */
  ghost predicate Recoverable(z: Zlib, objects: seq<PackObject>, pack: seq<byte>, offsets: seq<nat>) {
    && |offsets| == |objects|
    && (forall bySha: map<Sha1, nat>, i :: 0 <= i < |objects| ==>
          ReadAt(z, bySha, pack, offsets[i], 0) == Ok(objects[i].content))
    && (exists order :: Lists(order, |objects|) &&
          forall out: Outside :: DecodePack(z, out, pack) == Ok(Contents(objects, order)))
  }

  /** What a successful write leaves: every choice of base, and where each entry lies. */
  ghost predicate Written(z: Zlib, objects: seq<PackObject>, pack: seq<byte>, offsets: seq<nat>,
                          order: seq<nat>, chosen: seq<Choice>, depth: seq<nat>, starts: seq<nat>)
  {
    && Stably(objects, order) && Selected(objects, order, chosen, depth, |order|) && Capped(depth) && Saves(z, objects, chosen)
    && Laid(z, objects, order, chosen, offsets, starts, pack, |order|)
    && (forall i :: 0 <= i < |objects| ==> offsets[i] < LARGE_OFFSET)
    && |pack| >= 12 && pack[..12] == PackHeader(|objects|) && |objects| <= LARGE_OFFSET
  }

  /** Signature and version 2 in front, and behind the last entry the checksum of all before it. */
  ghost predicate Sealed(pack: seq<byte>, end: nat, checksum: seq<byte> -> Sha1) {
    12 <= end <= |pack| && pack[..8] == [80, 65, 67, 75, 0, 0, 0, 2] && pack[end..] == checksum(pack[..end])
  }

  lemma SealsPack(n: nat, body: seq<byte>, checksum: seq<byte> -> Sha1)
    requires |body| >= 12 && body[..12] == PackHeader(n)
    ensures Sealed(body + checksum(body), |body|, checksum)
  {
    var pack := body + checksum(body);
    assert pack[..8] == body[..12][..8] == [80, 65, 67, 75, 0, 0, 0, 2];
    assert pack[..|body|] == body && pack[|body|..] == checksum(body);
  }

  /** For every object list and window: if the writer succeeds and each object is within the
      readers' limit, both readers recover each object exactly. It fails only if some of the
      objects, not all of them, already take 2 GiB when compressed. */
  method WriteGitPack(z: Zlib, objects: seq<PackObject>, window: nat, hash: seq<byte> -> int, checksum: seq<byte> -> Sha1)
      returns (r: Result<(seq<byte>, seq<nat>)>, ghost order: seq<nat>, ghost chosen: seq<Choice>, ghost depth: seq<nat>,
               ghost starts: seq<nat>)
    requires Sound(z) && Packable(objects)
    ensures r.Ok? ==> Written(z, objects, r.value.0, r.value.1, order, chosen, depth, starts)
    ensures r.Ok? && Inflatable(objects) ==> Recoverable(z, objects, r.value.0, r.value.1)
    ensures r.Ok? ==> |starts| == |objects| + 1 && Sealed(r.value.0, starts[|objects|], checksum)
    ensures Lists(order, |objects|) && Greedy(z, objects, order, window, hash, chosen, depth, |objects|)
    ensures r.Corrupt? ==> exists k :: 0 <= k < |objects| && Budget(z, objects, order, k) >= LARGE_OFFSET
  {
    hide EntryBytes, LaidAt, Chosen, Budget, Saves, Greedy, Stably, Sealed, PackHeader;
    var o := SortOrder(objects);
    var c, d := SelectBases(z, objects, o, window, hash);
    order, chosen, depth := o, c, d;
    ghost var laid, placed;
    r, starts, laid, placed := LayOut(z, objects, o, c, depth);
    if r.Ok? {
      var (body, offsets) := r.value;
      var pack := body + checksum(body);
      TrailerKeepsLayout(z, objects, order, chosen, offsets, starts, body, checksum(body));
      assert pack[..12] == body[..12];
      SealsPack(|objects|, body, checksum);
      OffsetsAreStarts(z, objects, order, chosen, offsets, starts, pack);
      if Inflatable(objects) {
        PackRecovers(z, objects, order, chosen, depth, offsets, starts, pack);
      }
      r := Ok((pack, offsets));
    } else {
      assert Budget(z, objects, order, |starts| - 1) >= LARGE_OFFSET;
    }
  }

  lemma OffsetsAreStarts(z: Zlib, objects: seq<PackObject>, order: seq<nat>, chosen: seq<Choice>,
      offsets: seq<nat>, starts: seq<nat>, pack: seq<byte>)
    requires Laid(z, objects, order, chosen, offsets, starts, pack, |order|)
    requires forall k :: 0 <= k < |order| ==> starts[k] < LARGE_OFFSET
    ensures forall i :: 0 <= i < |objects| ==> offsets[i] < LARGE_OFFSET
  {
    hide EntryBytes;
    forall i | 0 <= i < |objects| ensures offsets[i] < LARGE_OFFSET {
      assert i in order;
      var k :| 0 <= k < |order| && order[k] == i;
      assert LaidAt(z, objects, order, chosen, offsets, starts, pack, k);
    }
  }

  lemma TrailerKeepsLayout(z: Zlib, objects: seq<PackObject>, order: seq<nat>, chosen: seq<Choice>,
      offsets: seq<nat>, starts: seq<nat>, pack: seq<byte>, trailer: seq<byte>)
    requires Laid(z, objects, order, chosen, offsets, starts, pack, |order|)
    ensures Laid(z, objects, order, chosen, offsets, starts, pack + trailer, |order|)
  {
    hide EntryBytes;
    forall k | 0 <= k < |order| ensures LaidAt(z, objects, order, chosen, offsets, starts, pack + trailer, k) {
      assert LaidAt(z, objects, order, chosen, offsets, starts, pack, k);
      GrownPackKeepsEntry(z, pack, trailer, starts[k], EntryOf(objects, chosen, offsets, order[k]));
    }
  }

  /** Every chain within the cap, both readers recover everything; a single longer
      chain and the seeking reader refuses that object: 50 is exactly its limit. */
  lemma PackRecovers(z: Zlib, objects: seq<PackObject>, order: seq<nat>, chosen: seq<Choice>, depth: seq<nat>,
      offsets: seq<nat>, starts: seq<nat>, pack: seq<byte>)
    requires Sound(z) && Packable(objects) && Inflatable(objects) && Selected(objects, order, chosen, depth, |order|)
    requires Laid(z, objects, order, chosen, offsets, starts, pack, |order|)
    requires |pack| >= 12 && pack[..12] == PackHeader(|objects|) && |objects| <= LARGE_OFFSET
    ensures Recoverable(z, objects, pack, offsets) <==> Capped(depth)
  {
    hide LaidAt, Chosen, ReadAt, DecodePack, PackHeader;
    forall bySha: map<Sha1, nat>, i | 0 <= i < |objects|
      ensures ReadAt(z, bySha, pack, offsets[i], 0) ==
        if depth[i] <= MAX_DELTA_DEPTH then Ok(objects[i].content) else Corrupt
    {
      assert i in order;
      var k :| 0 <= k < |order| && order[k] == i;
      SeekReadsBack(z, bySha, objects, order, chosen, depth, offsets, starts, pack, k, 0);
    }
    forall out: Outside ensures DecodePack(z, out, pack) == Ok(Contents(objects, order)) {
      StreamReadsBack(z, out, objects, order, chosen, depth, offsets, starts, pack);
    }
    if !Capped(depth) {
      var i :| 0 <= i < |depth| && depth[i] > MAX_DELTA_DEPTH;
      assert ReadAt(z, map[], pack, offsets[i], 0).Corrupt?;
    }
  }
}
