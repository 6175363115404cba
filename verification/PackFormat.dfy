/**
 The packfile format: object headers, packed entries, and the two independent
 readers, one that seeks to an offset and one that streams the whole pack.
 */
module PackFormat {
  import opened Bytes
  import opened Varints
  import opened Delta

  const OFS_DELTA: nat := 6
  const REF_DELTA: nat := 7
  /** The seeking reader gives up beyond this many delta hops. */
  const MAX_DELTA_DEPTH: nat := 50
  /** 1 GiB, the largest object either reader inflates. */
  const MAX_PACK_OBJECT: nat := 0x4000_0000

  type Sha1 = seq<byte>

  /** The compression library: any pair of functions where inflating undoes deflating
      and stops, with a byte count, at the end of the compressed stream. */
  datatype Zlib = Zlib(deflate: seq<byte> -> seq<byte>, inflate: seq<byte> -> Result<(seq<byte>, nat)>)

  ghost predicate Sound(z: Zlib) {
    forall c: seq<byte>, rest: seq<byte> {:trigger z.deflate(c) + rest} ::
      z.inflate(z.deflate(c) + rest) == Ok((c, |z.deflate(c)|))
  }

  // ----- object headers ---------------------------------------------------------------

  function HeaderBytes(gitType: nat, size: nat): (bytes: seq<byte>)
    requires gitType < 8
    ensures |bytes| > 0
  {
    if size < 16 then [gitType * 16 + size]
    else [128 + gitType * 16 + size % 16] + SizeBytes(size / 16)
  }

  /** Type, declared size and header length. The size reader allows nine more bytes
      and keeps four bits of the last. */
  function ReadHeader(d: seq<byte>): (r: Result<(nat, nat, nat)>)
    ensures r.Ok? ==> r.value.0 < 8 && 0 < r.value.2 <= |d|
  {
    if d == [] then Corrupt
    else if d[0] < 128 then Ok((d[0] / 16, d[0] % 16, 1))
    else
      var (v, used) :- ReadDigits(d[1..], 8, 16);
      Ok(((d[0] - 128) / 16, d[0] % 16 + 16 * v, 1 + used))
  }

  lemma HeaderRoundTrip(gitType: nat, size: nat, rest: seq<byte>)
    requires gitType < 8 && size < U64
    ensures ReadHeader(HeaderBytes(gitType, size) + rest) == Ok((gitType, size, |HeaderBytes(gitType, size)|))
  {
    hide ReadDigits, SizeBytes, Room;
    var d := HeaderBytes(gitType, size) + rest;
    if size >= 16 {
      assert d[1..] == SizeBytes(size / 16) + rest;
      RoomIsU64();
      DigitsRoundTrip(size / 16, 8, 16, rest);
    }
  }

  lemma HeaderIsShort(gitType: nat, size: nat)
    requires gitType < 8 && size < U64
    ensures |HeaderBytes(gitType, size)| <= 10
  {
    hide SizeBytes, Room;
    if size >= 16 {
      RoomIsU64();
      SizeIsShort(size / 16, 8, 16);
    }
  }

  /** What the header writer still has to emit: the byte in hand and the size bits left. */
  function HeaderTail(b: nat, size: nat): seq<byte>
    requires b < 128
  {
    if size == 0 then [b] else [b + 128] + SizeBytes(size)
  }

  lemma HeaderStep(r: seq<byte>, b: nat, size: nat)
    requires b < 128 && size > 0
    ensures r + HeaderTail(b, size) == (r + [b + 128]) + HeaderTail(size % 128, size / 128)
  {
    assert SizeBytes(size) == HeaderTail(size % 128, size / 128);
  }

  method WriteObjHeader(out: seq<byte>, gitType: nat, objectSize: nat) returns (r: seq<byte>)
    requires gitType < 8
    ensures r == out + HeaderBytes(gitType, objectSize)
  {
    r := out;
    var b: nat := gitType * 16 + objectSize % 16;
    var size: nat := objectSize / 16;
    assert HeaderBytes(gitType, objectSize) == HeaderTail(b, size);
    hide HeaderBytes, SizeBytes;
    while size > 0
      invariant b < 128
      invariant r + HeaderTail(b, size) == out + HeaderBytes(gitType, objectSize)
    {
      HeaderStep(r, b, size);
      r := r + [b + 128];
      b := size % 128;
      size := size / 128;
    }
    r := r + [b];
  }

  method ParseObjHeader(data: seq<byte>) returns (r: Result<(nat, nat, nat)>)
    ensures r == ReadHeader(data)
  {
    hide ReadDigits;
    if data == [] { return Corrupt; }
    var first := data[0];
    if first < 128 { return Ok((first / 16, first % 16, 1)); }
    var size := ReadDigitLoop(data, 1, first % 16, 16, 8, 16);
    if size.Corrupt? { return Corrupt; }
    r := Ok(((first - 128) / 16, size.value.0, size.value.1));
  }

  // ----- packed entries ------------------------------------------------------------------

  datatype Entry = Full(gitType: nat, content: seq<byte>) | OfsDelta(rel: nat, delta: seq<byte>)

  predicate WellFormed(e: Entry) {
    match e
    case Full(t, content) => 1 <= t <= 4 && |content| < U64
    case OfsDelta(rel, delta) => rel < U64 && |delta| < U64
  }

  function EntryBytes(z: Zlib, e: Entry): (bytes: seq<byte>)
    requires WellFormed(e)
    ensures |bytes| > 0
  {
    match e
    case Full(t, content) => HeaderBytes(t, |content|) + z.deflate(content)
    case OfsDelta(rel, delta) => HeaderBytes(OFS_DELTA, |delta|) + (OfsBytes(rel) + z.deflate(delta))
  }

  function Payload(e: Entry): seq<byte> {
    match e
    case Full(_, content) => content
    case OfsDelta(_, delta) => delta
  }

  // ----- the streaming reader: headers -----------------------------------------------------

  datatype BaseRef = NoBase | ByOffset(rel: nat) | BySha(sha: Sha1)

  /** Header, base reference and the length of both. */
  function ReadEntryHead(d: seq<byte>): (r: Result<(nat, nat, BaseRef, nat)>)
    ensures r.Ok? ==> 0 < r.value.3 <= |d|
  {
    var (t, size, n) :- ReadHeader(d);
    if 1 <= t <= 4 then Ok((t, size, NoBase, n))
    else if t == OFS_DELTA then
      var (rel, used) :- ReadOfs(d[n..]);
      Ok((t, size, ByOffset(rel), n + used))
    else if t == REF_DELTA then
      if n + 20 <= |d| then Ok((t, size, BySha(d[n..n + 20]), n + 20)) else Corrupt
    else Corrupt
  }

  function HeadBytes(e: Entry): (bytes: seq<byte>)
    requires WellFormed(e)
    ensures |bytes| > 0
  {
    match e
    case Full(t, content) => HeaderBytes(t, |content|)
    case OfsDelta(rel, delta) => HeaderBytes(OFS_DELTA, |delta|) + OfsBytes(rel)
  }

  lemma EntryIsHeadThenStream(z: Zlib, e: Entry)
    requires WellFormed(e)
    ensures EntryBytes(z, e) == HeadBytes(e) + z.deflate(Payload(e))
  {
    hide HeaderBytes, OfsBytes;
    if e.OfsDelta? {
      assert EntryBytes(z, e) == (HeaderBytes(OFS_DELTA, |e.delta|) + OfsBytes(e.rel)) + z.deflate(e.delta);
    }
  }

  function HeadOf(e: Entry): (nat, nat, BaseRef, nat)
    requires WellFormed(e)
  {
    match e
    case Full(t, content) => (t, |content|, NoBase, |HeadBytes(e)|)
    case OfsDelta(rel, delta) => (OFS_DELTA, |delta|, ByOffset(rel), |HeadBytes(e)|)
  }

  lemma HeadReadsBack(e: Entry, rest: seq<byte>)
    requires WellFormed(e)
    ensures ReadEntryHead(HeadBytes(e) + rest) == Ok(HeadOf(e))
  {
    hide ReadHeader, ReadOfs, HeaderBytes, OfsBytes;
    match e
    case Full(t, content) => HeaderRoundTrip(t, |content|, rest);
    case OfsDelta(rel, delta) =>
      var h := HeaderBytes(OFS_DELTA, |delta|);
      var d := HeadBytes(e) + rest;
      assert d == h + (OfsBytes(rel) + rest);
      HeaderRoundTrip(OFS_DELTA, |delta|, OfsBytes(rel) + rest);
      assert d[|h|..] == OfsBytes(rel) + rest;
      OfsRoundTrip(rel, rest);
  }

  /** A delta against an object named by its 20-byte id, as other writers store it. */
  lemma RefHeadReadsBack(size: nat, sha: Sha1, rest: seq<byte>)
    requires size < U64 && |sha| == 20
    ensures var h := HeaderBytes(7, size) + sha; ReadEntryHead(h + rest) == Ok((7, size, BySha(sha), |h|))
  {
    hide ReadHeader, HeaderBytes;
    var h := HeaderBytes(7, size);
    var d := h + sha + rest;
    assert d == h + (sha + rest);
    HeaderRoundTrip(7, size, sha + rest);
    assert d[|h|..|h| + 20] == sha;
  }

  /** Only the four kinds and the two deltas are entries. */
  lemma UnknownTypeRefused(d: seq<byte>)
    requires ReadHeader(d).Ok? && ReadHeader(d).value.0 !in {1, 2, 3, 4, 6, 7}
    ensures ReadEntryHead(d).Corrupt?
  {
    hide ReadHeader;
  }

  // ----- the seeking reader ------------------------------------------------------------------

  function InflateCapped(z: Zlib, d: seq<byte>): Result<seq<byte>> {
    var (c, _) :- z.inflate(d);
    if |c| > MAX_PACK_OBJECT then Corrupt else Ok(c)
  }

  /** The object at `offset`, following delta bases up to the depth cap. */
  function ReadAt(z: Zlib, bySha: map<Sha1, nat>, pack: seq<byte>, offset: nat, depth: nat): Result<seq<byte>>
    decreases MAX_DELTA_DEPTH + 1 - depth
  {
    if depth > MAX_DELTA_DEPTH || offset > |pack| then Corrupt
    else
      var data := pack[offset..];
      var (t, _, n) :- ReadHeader(data);
      if 1 <= t <= 4 then InflateCapped(z, data[n..])
      else if t == OFS_DELTA then
        var (rel, used) :- ReadOfs(data[n..]);
        if rel > offset then Corrupt
        else
          var delta :- InflateCapped(z, data[n + used..]);
          var base :- ReadAt(z, bySha, pack, offset - rel, depth + 1);
          ApplyDelta(base, delta)
      else if t == REF_DELTA then
        if n + 20 > |data| || data[n..n + 20] !in bySha then Corrupt
        else
          var delta :- InflateCapped(z, data[n + 20..]);
          var base :- ReadAt(z, bySha, pack, bySha[data[n..n + 20]], depth + 1);
          ApplyDelta(base, delta)
      else Corrupt
  }

  /** `e` is stored at `offset`. */
  predicate EntryAt(z: Zlib, pack: seq<byte>, offset: nat, e: Entry)
    requires WellFormed(e)
  {
    offset + |EntryBytes(z, e)| <= |pack| && pack[offset..offset + |EntryBytes(z, e)|] == EntryBytes(z, e)
  }

  lemma EntryPrefix(z: Zlib, pack: seq<byte>, offset: nat, e: Entry) returns (rest: seq<byte>)
    requires WellFormed(e) && EntryAt(z, pack, offset, e)
    ensures pack[offset..] == HeadBytes(e) + (z.deflate(Payload(e)) + rest)
  {
    hide HeaderBytes, OfsBytes;
    EntryIsHeadThenStream(z, e);
    var n := |EntryBytes(z, e)|;
    rest := pack[offset + n..];
    assert pack[offset..] == EntryBytes(z, e) + rest;
  }

  lemma ReadsFull(z: Zlib, bySha: map<Sha1, nat>, pack: seq<byte>, offset: nat, depth: nat, e: Entry)
    requires Sound(z) && e.Full? && WellFormed(e) && EntryAt(z, pack, offset, e)
    requires |e.content| <= MAX_PACK_OBJECT && depth <= MAX_DELTA_DEPTH
    ensures ReadAt(z, bySha, pack, offset, depth) == Ok(e.content)
  {
    hide ReadHeader, HeaderBytes;
    var rest := EntryPrefix(z, pack, offset, e);
    var data, h := pack[offset..], HeaderBytes(e.gitType, |e.content|);
    HeaderRoundTrip(e.gitType, |e.content|, z.deflate(e.content) + rest);
    assert data[|h|..] == z.deflate(e.content) + rest;
  }

  /** One hop: the entry's delta applied to whatever its base reads as, one deeper. */
  lemma ReadsDelta(z: Zlib, bySha: map<Sha1, nat>, pack: seq<byte>, offset: nat, depth: nat, e: Entry)
    requires Sound(z) && e.OfsDelta? && WellFormed(e) && EntryAt(z, pack, offset, e)
    requires |e.delta| <= MAX_PACK_OBJECT && e.rel <= offset && depth <= MAX_DELTA_DEPTH
    ensures ReadAt(z, bySha, pack, offset, depth) ==
      var base := ReadAt(z, bySha, pack, offset - e.rel, depth + 1);
      if base.Ok? then ApplyDelta(base.value, e.delta) else Corrupt
  {
    hide ReadHeader, ReadOfs, HeaderBytes, OfsBytes, ApplyDelta;
    var rest := EntryPrefix(z, pack, offset, e);
    var data, h, o, s := pack[offset..], HeaderBytes(OFS_DELTA, |e.delta|), OfsBytes(e.rel), z.deflate(e.delta) + rest;
    assert data == h + (o + s);
    HeaderRoundTrip(OFS_DELTA, |e.delta|, o + s);
    assert data[|h|..] == o + s;
    OfsRoundTrip(e.rel, s);
    assert data[|h| + |o|..] == s;
  }

  /** A delta by id reads through the id table: missing from it, the entry does not read. */
  lemma ReadsRefDelta(z: Zlib, bySha: map<Sha1, nat>, pack: seq<byte>, offset: nat, depth: nat,
                      sha: Sha1, delta: seq<byte>, rest: seq<byte>)
    requires Sound(z) && |sha| == 20 && |delta| <= 0x4000_0000 && depth <= 50 && offset <= |pack|
    requires pack[offset..] == HeaderBytes(7, |delta|) + sha + (z.deflate(delta) + rest)
    ensures sha !in bySha ==> ReadAt(z, bySha, pack, offset, depth).Corrupt?
    ensures sha in bySha ==>
      var base := ReadAt(z, bySha, pack, bySha[sha], depth + 1);
      ReadAt(z, bySha, pack, offset, depth) == if base.Ok? then ApplyDelta(base.value, delta) else Corrupt
  {
    hide ReadHeader, HeaderBytes, ApplyDelta;
    var data, h, s := pack[offset..], HeaderBytes(7, |delta|), z.deflate(delta) + rest;
    assert data == h + (sha + s);
    HeaderRoundTrip(7, |delta|, sha + s);
    assert data[|h|..|h| + 20] == sha;
    assert data[|h| + 20..] == s;
  }
}
