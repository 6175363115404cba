/**
 The delta encoder: its block index, its greedy matcher and the bytes it emits, as an
 exact function of base, target and block hash. For bases up to 4 GiB the delta rebuilds
 the target; beyond, exactly if no copy is changed by cutting its offset to 32 bits.
 */
module DeltaEncoder {
  import opened Bytes
  import opened Varints
  import opened Delta

  /** The largest base whose every position fits a copy's four offset bytes. */
  const MAX_BASE: nat := 0x1_0000_0000

  // ----- what the encoder emits ------------------------------------------------------------------

  /** Literal bytes, at most 127 to an instruction. */
  function Literals(bytes: seq<byte>): seq<byte>
    decreases |bytes|
  {
    if bytes == [] then []
    else if |bytes| <= MAX_INSERT then [|bytes|] + bytes
    else ([MAX_INSERT] + bytes[..MAX_INSERT]) + Literals(bytes[MAX_INSERT..])
  }

  /** A copy from the base, at most 0xffffff bytes to an instruction. */
  function CopyOps(off: nat, size: nat): seq<byte>
    decreases size
  {
    if size == 0 then []
    else if size <= MAX_COPY then CopyBytes(off, size)
    else CopyBytes(off, MAX_COPY) + CopyOps(off + MAX_COPY, size - MAX_COPY)
  }

  /** The bytes such a copy fetches when it is decoded. */
  function Fetched(base: seq<byte>, off: nat, size: nat): (r: seq<byte>)
    requires off + size <= |base|
    ensures |r| == size
    decreases size
  {
    var low := off % MAX_BASE;
    if size <= MAX_COPY then base[low..low + size]
    else base[low..low + MAX_COPY] + Fetched(base, off + MAX_COPY, size - MAX_COPY)
  }

  lemma {:induction false} LiteralsRun(base: seq<byte>, bytes: seq<byte>)
    ensures Run(base, Literals(bytes)) == Ok(bytes)
    decreases |bytes|
  {
    hide Run;
    if bytes == [] {
      NothingRuns(base);
    } else if |bytes| <= MAX_INSERT {
      InsertRuns(base, bytes);
    } else {
      InsertRuns(base, bytes[..MAX_INSERT]);
      LiteralsRun(base, bytes[MAX_INSERT..]);
      RunConcat(base, [MAX_INSERT] + bytes[..MAX_INSERT], Literals(bytes[MAX_INSERT..]));
      assert bytes[..MAX_INSERT] + bytes[MAX_INSERT..] == bytes;
    }
  }

  lemma NothingRuns(base: seq<byte>)
    ensures Run(base, []) == Ok([])
  {}

  lemma {:induction false} CopyOpsRun(base: seq<byte>, off: nat, size: nat)
    requires off + size <= |base|
    ensures Run(base, CopyOps(off, size)) == Ok(Fetched(base, off, size))
    decreases size
  {
    hide Run, CopyBytes;
    if size == 0 {
      NothingRuns(base);
    } else if size <= MAX_COPY {
      CopyRuns(base, off, size);
    } else {
      CopyRuns(base, off, MAX_COPY);
      CopyOpsRun(base, off + MAX_COPY, size - MAX_COPY);
      RunConcat(base, CopyBytes(off, MAX_COPY), CopyOps(off + MAX_COPY, size - MAX_COPY));
    }
  }

  lemma {:induction false} FetchedBelowLimit(base: seq<byte>, off: nat, size: nat)
    requires off + size <= |base| <= MAX_BASE
    ensures Fetched(base, off, size) == base[off..off + size]
    decreases size
  {
    if off < MAX_BASE {
      assert off % MAX_BASE == off;
      if size > MAX_COPY {
        FetchedBelowLimit(base, off + MAX_COPY, size - MAX_COPY);
        assert base[off..off + size] == base[off..off + MAX_COPY] + base[off + MAX_COPY..off + size];
      }
    }
  }

  method FlushInsert(ops: seq<byte>, pending: seq<byte>) returns (r: seq<byte>)
    ensures r == ops + Literals(pending)
  {
    r := ops;
    var i := 0;
    assert pending[0..] == pending;
    while i < |pending|
      invariant i <= |pending| && r + Literals(pending[i..]) == ops + Literals(pending)
    {
      var chunk := if |pending| - i < MAX_INSERT then |pending| - i else MAX_INSERT;
      LiteralsStep(pending[i..], chunk);
      assert pending[i..][..chunk] == pending[i..i + chunk] && pending[i..][chunk..] == pending[i + chunk..];
      r := r + ([chunk] + pending[i..i + chunk]);
      i := i + chunk;
    }
    assert pending[i..] == [];
  }

  lemma LiteralsStep(bytes: seq<byte>, chunk: nat)
    requires bytes != [] && chunk == if |bytes| < MAX_INSERT then |bytes| else MAX_INSERT
    ensures Literals(bytes) == ([chunk] + bytes[..chunk]) + Literals(bytes[chunk..])
  {
    if |bytes| <= MAX_INSERT { assert bytes[..chunk] == bytes && bytes[chunk..] == []; }
  }

  method EmitCopy(ops: seq<byte>, offset: nat, size: nat) returns (r: seq<byte>)
    ensures r == ops + CopyOps(offset, size)
  {
    hide CopyBytes;
    r := ops;
    var remaining: nat, off: nat := size, offset;
    while remaining > 0
      invariant r + CopyOps(off, remaining) == ops + CopyOps(offset, size)
    {
      var chunk := if remaining < MAX_COPY then remaining else MAX_COPY;
      CopyOpsStep(off, remaining, chunk);
      var op := EmitOne(off, chunk);
      r := r + op;
      off, remaining := off + chunk, remaining - chunk;
    }
  }

  lemma CopyOpsStep(off: nat, size: nat, chunk: nat)
    requires size > 0 && chunk == if size < MAX_COPY then size else MAX_COPY
    ensures CopyOps(off, size) == CopyBytes(off, chunk) + CopyOps(off + chunk, size - chunk)
  {
    hide CopyBytes;
  }

  /** The opcode and the non-zero bytes of one copy, field by field. */
  method EmitOne(off: nat, size: nat) returns (r: seq<byte>)
    ensures r == CopyBytes(off, size)
  {
    FlagsBounded(off, 4);
    FlagsBounded(size, 3);
    assert Pow2(4) == 16 && Pow2(3) == 8;
    var f, x := EmitField(off, 4);
    var g, y := EmitField(size, 3);
    r := [128 + f + 16 * g] + (x + y);
  }

  lemma EmitFieldStep(v: nat, n: nat, flags: nat, bit: nat, bytes: seq<byte>)
    requires n > 0
    ensures v % 256 == 0 ==>
      flags + bit * FieldFlags(v, n) == flags + bit * 2 * FieldFlags(v / 256, n - 1) &&
      bytes + FieldBytes(v, n) == bytes + FieldBytes(v / 256, n - 1)
    ensures v % 256 != 0 ==>
      flags + bit * FieldFlags(v, n) == flags + bit + bit * 2 * FieldFlags(v / 256, n - 1) &&
      bytes + FieldBytes(v, n) == bytes + [v % 256] + FieldBytes(v / 256, n - 1)
  {
    hide FieldFlags, FieldBytes;
    FieldUnfolds(v, n);
    var rest, low := FieldFlags(v / 256, n - 1), if v % 256 == 0 then 0 else 1;
    assert FieldFlags(v, n) == low + 2 * rest;
    Doubling(bit, rest);
    assert bytes + ([] + FieldBytes(v / 256, n - 1)) == bytes + FieldBytes(v / 256, n - 1);
    assert v % 256 != 0 ==> bytes + ([v % 256] + FieldBytes(v / 256, n - 1)) == bytes + [v % 256] + FieldBytes(v / 256, n - 1);
  }

  lemma Doubling(bit: nat, rest: nat)
    ensures bit * (2 * rest) == bit * 2 * rest && bit * (1 + 2 * rest) == bit + bit * 2 * rest
  {}

  method EmitField(value: nat, width: nat) returns (flags: nat, bytes: seq<byte>)
    ensures flags == FieldFlags(value, width) && bytes == FieldBytes(value, width)
  {
    hide FieldFlags, FieldBytes;
    var v: nat, bit: nat := value, 1;
    flags, bytes := 0, [];
    for i := 0 to width
      invariant flags + bit * FieldFlags(v, width - i) == FieldFlags(value, width)
      invariant bytes + FieldBytes(v, width - i) == FieldBytes(value, width)
    {
      EmitFieldStep(v, width - i, flags, bit, bytes);
      if v % 256 != 0 {
        flags, bytes := flags + bit, bytes + [v % 256];
      }
      v, bit := v / 256, bit * 2;
    }
    FieldNothingLeft(v);
  }

  lemma FieldNothingLeft(v: nat)
    ensures FieldFlags(v, 0) == 0 && FieldBytes(v, 0) == []
  {}

  // ----- the block index --------------------------------------------------------------------------

  /** A base with the positions of its 16-byte windows, grouped by window hash. */
  datatype DeltaIndex = DeltaIndex(base: seq<byte>, index: map<int, seq<nat>>)

  /** Every indexed position starts a whole window of the base. */
  ghost predicate Indexed(idx: DeltaIndex) {
    forall h, i :: h in idx.index && 0 <= i < |idx.index[h]| ==> idx.index[h][i] + DELTA_WIN <= |idx.base|
  }

  function Window(base: seq<byte>, p: nat): seq<byte>
    requires p + DELTA_WIN <= |base|
  {
    base[p..p + DELTA_WIN]
  }

  predicate Filed(index: map<int, seq<nat>>, h: int, p: nat) {
    h in index && p in index[h]
  }

  /** Each bucket lists, in order, exactly the windows with its hash. */
  ghost predicate IndexOf(idx: DeltaIndex, hash: seq<byte> -> int) {
    && Indexed(idx)
    && (forall p :: 0 <= p <= |idx.base| - DELTA_WIN ==> Filed(idx.index, hash(Window(idx.base, p)), p))
    && (forall h, i :: h in idx.index && 0 <= i < |idx.index[h]| ==> hash(Window(idx.base, idx.index[h][i])) == h)
    && (forall h, i, j :: h in idx.index && 0 <= i < j < |idx.index[h]| ==> idx.index[h][i] < idx.index[h][j])
  }

  /** The windows before `n`, filed one by one. */
  function Filing(base: seq<byte>, hash: seq<byte> -> int, n: nat): map<int, seq<nat>>
    requires n == 0 || n - 1 + DELTA_WIN <= |base|
  {
    if n == 0 then map[]
    else
      var index, h := Filing(base, hash, n - 1), hash(Window(base, n - 1));
      index[h := (if h in index then index[h] else []) + [n - 1]]
  }

  function FullIndex(base: seq<byte>, hash: seq<byte> -> int): DeltaIndex {
    DeltaIndex(base, if |base| >= DELTA_WIN then Filing(base, hash, |base| - DELTA_WIN + 1) else map[])
  }

  method BuildIndex(base: seq<byte>, hash: seq<byte> -> int) returns (idx: DeltaIndex)
    ensures idx.base == base && IndexOf(idx, hash) && idx == FullIndex(base, hash)
  {
    hide Window, IndexOf;
    var index: map<int, seq<nat>> := map[];
    if |base| >= DELTA_WIN {
      for i := 0 to |base| - DELTA_WIN + 1
        invariant index == Filing(base, hash, i)
      {
        var h := hash(Window(base, i));
        index := index[h := (if h in index then index[h] else []) + [i]];
      }
    }
    idx := DeltaIndex(base, index);
    FullIndexIsWhole(base, hash);
  }

  /** The index once the windows before `n` are filed. */
  ghost predicate FiledUpTo(idx: DeltaIndex, hash: seq<byte> -> int, n: nat) {
    && Indexed(idx) && n + DELTA_WIN <= |idx.base| + 1
    && (forall p :: 0 <= p < n ==> Filed(idx.index, hash(Window(idx.base, p)), p))
    && (forall h, i :: h in idx.index && 0 <= i < |idx.index[h]| ==> idx.index[h][i] < n && hash(Window(idx.base, idx.index[h][i])) == h)
    && (forall h, i, j :: h in idx.index && 0 <= i < j < |idx.index[h]| ==> idx.index[h][i] < idx.index[h][j])
  }

  lemma FilesNext(idx: DeltaIndex, hash: seq<byte> -> int, n: nat)
    requires FiledUpTo(idx, hash, n) && n + DELTA_WIN <= |idx.base|
    ensures var h := hash(Window(idx.base, n));
      FiledUpTo(idx.(index := idx.index[h := (if h in idx.index then idx.index[h] else []) + [n]]), hash, n + 1)
  {
    hide Window;
  }

  lemma {:induction false} FilingIsFiled(base: seq<byte>, hash: seq<byte> -> int, n: nat)
    requires n + DELTA_WIN <= |base| + 1
    ensures FiledUpTo(DeltaIndex(base, Filing(base, hash, n)), hash, n)
    decreases n
  {
    if n > 0 {
      FilingIsFiled(base, hash, n - 1);
      FilesNext(DeltaIndex(base, Filing(base, hash, n - 1)), hash, n - 1);
      hide FiledUpTo, Window;
    }
  }

  lemma FullIndexIsWhole(base: seq<byte>, hash: seq<byte> -> int)
    ensures IndexOf(FullIndex(base, hash), hash)
  {
    hide Window, Filing;
    if |base| >= DELTA_WIN { FilingIsFiled(base, hash, |base| - DELTA_WIN + 1); }
  }

  // ----- matching ------------------------------------------------------------------------------------

  /** `len` bytes agree from position `b` of the base and `t` of the target. */
  predicate Matches(base: seq<byte>, b: nat, target: seq<byte>, t: nat, len: nat) {
    b + len <= |base| && t + len <= |target| && base[b..b + len] == target[t..t + len]
  }

  /** How far a match of `n` bytes extends. */
  function MatchLen(base: seq<byte>, b: nat, target: seq<byte>, t: nat, n: nat): (len: nat)
    ensures len >= n
    decreases |base| - n
  {
    if b + n < |base| && t + n < |target| && base[b + n] == target[t + n] then MatchLen(base, b, target, t, n + 1) else n
  }

  lemma {:induction false} MatchLenIsLongest(base: seq<byte>, b: nat, target: seq<byte>, t: nat, n: nat)
    requires Matches(base, b, target, t, n)
    ensures Matches(base, b, target, t, MatchLen(base, b, target, t, n))
    ensures forall m :: m > MatchLen(base, b, target, t, n) ==> !Matches(base, b, target, t, m)
    decreases |base| - n
  {
    if b + n < |base| && t + n < |target| && base[b + n] == target[t + n] {
      assert base[b..b + n + 1] == base[b..b + n] + [base[b + n]];
      assert target[t..t + n + 1] == target[t..t + n] + [target[t + n]];
      MatchLenIsLongest(base, b, target, t, n + 1);
    } else {
      forall m | m > n ensures !Matches(base, b, target, t, m) {
        if b + m <= |base| && t + m <= |target| {
          assert base[b..b + m][n] == base[b + n] && target[t..t + m][n] == target[t + n];
        }
      }
    }
  }

  /** The first 64 positions filed under the window at `t`. */
  function Candidates(idx: DeltaIndex, hash: seq<byte> -> int, target: seq<byte>, t: nat): seq<nat> {
    if |idx.base| >= DELTA_WIN && t + DELTA_WIN <= |target| && hash(target[t..t + DELTA_WIN]) in idx.index then
      var cands := idx.index[hash(target[t..t + DELTA_WIN])];
      if |cands| <= 64 then cands else cands[..64]
    else []
  }

  /** The first of the longest matches among some positions: where, and how long. */
  function Best(base: seq<byte>, cands: seq<nat>, target: seq<byte>, t: nat): (nat, nat) {
    if cands == [] then (0, 0)
    else
      var (off, len) := Best(base, cands[..|cands| - 1], target, t);
      var b := cands[|cands| - 1];
      if Matches(base, b, target, t, DELTA_WIN) && MatchLen(base, b, target, t, DELTA_WIN) > len
      then (b, MatchLen(base, b, target, t, DELTA_WIN)) else (off, len)
  }

  function BestAt(idx: DeltaIndex, hash: seq<byte> -> int, target: seq<byte>, t: nat): (nat, nat) {
    Best(idx.base, Candidates(idx, hash, target, t), target, t)
  }

  /** The match found is one of the candidates', and no candidate has a longer one. */
  lemma {:induction false} BestIsLongest(base: seq<byte>, cands: seq<nat>, target: seq<byte>, t: nat)
    ensures var (off, len) := Best(base, cands, target, t);
      && (len == 0 || (len >= DELTA_WIN && off in cands && Matches(base, off, target, t, len)))
      && forall b, n :: b in cands && n > len && n >= DELTA_WIN ==> !Matches(base, b, target, t, n)
    decreases |cands|
  {
    if cands != [] {
      var b, rest := cands[|cands| - 1], cands[..|cands| - 1];
      BestIsLongest(base, rest, target, t);
      assert forall x :: x in cands ==> x in rest || x == b;
      if Matches(base, b, target, t, DELTA_WIN) {
        MatchLenIsLongest(base, b, target, t, DELTA_WIN);
      } else {
        NoLongMatch(base, b, target, t);
      }
    }
  }

  lemma NoLongMatch(base: seq<byte>, b: nat, target: seq<byte>, t: nat)
    requires !Matches(base, b, target, t, DELTA_WIN)
    ensures forall n :: n >= DELTA_WIN ==> !Matches(base, b, target, t, n)
  {
    forall n | n >= DELTA_WIN ensures !Matches(base, b, target, t, n) {
      if b + n <= |base| && t + n <= |target| {
        assert base[b..b + n][..DELTA_WIN] == base[b..b + DELTA_WIN];
        assert target[t..t + n][..DELTA_WIN] == target[t..t + DELTA_WIN];
      }
    }
  }

  method ExtendMatch(base: seq<byte>, b: nat, target: seq<byte>, t: nat) returns (len: nat)
    ensures len == MatchLen(base, b, target, t, DELTA_WIN)
  {
    len := DELTA_WIN;
    while b + len < |base| && t + len < |target| && base[b + len] == target[t + len]
      invariant MatchLen(base, b, target, t, len) == MatchLen(base, b, target, t, DELTA_WIN)
      decreases |base| - len
    {
      len := len + 1;
    }
  }

  method BestMatch(idx: DeltaIndex, hash: seq<byte> -> int, target: seq<byte>, t: nat) returns (off: nat, len: nat)
    requires Indexed(idx) && t < |target|
    ensures (off, len) == BestAt(idx, hash, target, t)
  {
    hide MatchLen;
    off, len := 0, 0;
    if |idx.base| >= DELTA_WIN && t + DELTA_WIN <= |target| {
      var h := hash(target[t..t + DELTA_WIN]);
      if h in idx.index {
        var cands := idx.index[h];
        var first := if |cands| <= 64 then cands else cands[..64];
        assert first == Candidates(idx, hash, target, t);
        for i := 0 to |first|
          invariant (off, len) == Best(idx.base, first[..i], target, t)
        {
          var b := first[i];
          assert first[..i + 1][..i] == first[..i];
          if idx.base[b..b + DELTA_WIN] == target[t..t + DELTA_WIN] {
            var n := ExtendMatch(idx.base, b, target, t);
            if n > len { len, off := n, b; }
          }
        }
        assert first[..|first|] == first;
      }
    }
  }

  // ----- the plan of a delta -----------------------------------------------------------------------------

  /** Literal bytes, or a stretch of the base. */
  datatype Piece = Literal(bytes: seq<byte>) | FromBase(off: nat, len: nat)

  /** From position `t` on, with `target[done..t]` still to be emitted. */
  function Plan(idx: DeltaIndex, hash: seq<byte> -> int, target: seq<byte>, done: nat, t: nat): seq<Piece>
    requires done <= t <= |target|
    decreases |target| - t
  {
    if t == |target| then [Literal(target[done..t])]
    else
      var (off, len) := BestAt(idx, hash, target, t);
      if DELTA_WIN <= len && t + len <= |target|
      then [Literal(target[done..t]), FromBase(off, len)] + Plan(idx, hash, target, t + len, t + len)
      else Plan(idx, hash, target, done, t + 1)
  }

  lemma PlanEnds(idx: DeltaIndex, hash: seq<byte> -> int, target: seq<byte>, done: nat)
    requires done <= |target|
    ensures Plan(idx, hash, target, done, |target|) == [Literal(target[done..])]
  {
    assert target[done..|target|] == target[done..];
  }

  lemma PlanCopies(idx: DeltaIndex, hash: seq<byte> -> int, target: seq<byte>, done: nat, t: nat, off: nat, len: nat)
    requires done <= t < |target| && BestAt(idx, hash, target, t) == (off, len) && DELTA_WIN <= len && t + len <= |target|
    ensures Plan(idx, hash, target, done, t) ==
      [Literal(target[done..t]), FromBase(off, len)] + Plan(idx, hash, target, t + len, t + len)
  {
    hide BestAt;
  }

  lemma PlanWaits(idx: DeltaIndex, hash: seq<byte> -> int, target: seq<byte>, done: nat, t: nat)
    requires done <= t < |target|
    requires var len := BestAt(idx, hash, target, t).1; !(DELTA_WIN <= len && t + len <= |target|)
    ensures Plan(idx, hash, target, done, t) == Plan(idx, hash, target, done, t + 1)
  {
    hide BestAt;
  }

  function PieceOps(p: Piece): seq<byte> {
    match p
    case Literal(bytes) => Literals(bytes)
    case FromBase(off, len) => CopyOps(off, len)
  }

  function OpsOf(plan: seq<Piece>): seq<byte> {
    if plan == [] then [] else PieceOps(plan[0]) + OpsOf(plan[1..])
  }

  predicate Fits(base: seq<byte>, p: Piece) {
    p.FromBase? ==> p.off + p.len <= |base|
  }

  /** What a piece stands for. */
  function Meant(base: seq<byte>, p: Piece): (r: seq<byte>)
    requires Fits(base, p)
  {
    match p
    case Literal(bytes) => bytes
    case FromBase(off, len) => base[off..off + len]
  }

  /** What it decodes to. */
  function Decoded(base: seq<byte>, p: Piece): (r: seq<byte>)
    requires Fits(base, p)
    ensures |r| == |Meant(base, p)|
  {
    match p
    case Literal(bytes) => bytes
    case FromBase(off, len) => Fetched(base, off, len)
  }

  predicate AllFit(base: seq<byte>, plan: seq<Piece>) { forall i :: 0 <= i < |plan| ==> Fits(base, plan[i]) }

  function AllMeant(base: seq<byte>, plan: seq<Piece>): seq<byte>
    requires AllFit(base, plan)
  {
    if plan == [] then [] else Meant(base, plan[0]) + AllMeant(base, plan[1..])
  }

  function AllDecoded(base: seq<byte>, plan: seq<Piece>): (r: seq<byte>)
    requires AllFit(base, plan)
    ensures |r| == |AllMeant(base, plan)|
  {
    if plan == [] then [] else Decoded(base, plan[0]) + AllDecoded(base, plan[1..])
  }

  /** Cutting its offset to 32 bits changes no copy of the plan. */
  ghost predicate SurvivesCut(base: seq<byte>, plan: seq<Piece>)
    requires AllFit(base, plan)
  {
    forall i :: 0 <= i < |plan| ==> Decoded(base, plan[i]) == Meant(base, plan[i])
  }

  lemma {:induction false} OpsRun(base: seq<byte>, plan: seq<Piece>)
    requires AllFit(base, plan)
    ensures Run(base, OpsOf(plan)) == Ok(AllDecoded(base, plan))
    decreases |plan|
  {
    hide Run, Literals, CopyOps, Fetched;
    if plan == [] {
      NothingRuns(base);
    } else {
      match plan[0] {
        case Literal(bytes) => LiteralsRun(base, bytes);
        case FromBase(off, len) => CopyOpsRun(base, off, len);
      }
      OpsRun(base, plan[1..]);
      RunConcat(base, PieceOps(plan[0]), OpsOf(plan[1..]));
    }
  }

  lemma {:induction false} DecodedAsMeantIff(base: seq<byte>, plan: seq<Piece>)
    requires AllFit(base, plan)
    ensures AllDecoded(base, plan) == AllMeant(base, plan) <==> SurvivesCut(base, plan)
    decreases |plan|
  {
    hide Decoded, Meant;
    if plan != [] {
      var d, m, ds, ms := Decoded(base, plan[0]), Meant(base, plan[0]), AllDecoded(base, plan[1..]), AllMeant(base, plan[1..]);
      DecodedAsMeantIff(base, plan[1..]);
      if d + ds == m + ms {
        assert d == (d + ds)[..|d|] == m && ds == (d + ds)[|d|..] == ms;
        forall i | 0 <= i < |plan| ensures Decoded(base, plan[i]) == Meant(base, plan[i]) {
          if i > 0 { assert plan[1..][i - 1] == plan[i]; }
        }
      }
      if SurvivesCut(base, plan) {
        forall i | 0 <= i < |plan| - 1 ensures Decoded(base, plan[1..][i]) == Meant(base, plan[1..][i]) {}
      }
    }
  }

  /** The plan stays within the base and, taken as meant, is the target from `done` on. */
  predicate Tiles(base: seq<byte>, plan: seq<Piece>, target: seq<byte>, done: nat) {
    done <= |target| && AllFit(base, plan) && AllMeant(base, plan) == target[done..]
  }

  lemma TilesInFront(base: seq<byte>, target: seq<byte>, done: nat, t: nat, off: nat, len: nat, rest: seq<Piece>)
    requires done <= t && t + len <= |target| && Tiles(base, rest, target, t + len)
    requires off + len <= |base| && base[off..off + len] == target[t..t + len]
    ensures Tiles(base, [Literal(target[done..t]), FromBase(off, len)] + rest, target, done)
  {
    hide AllMeant, AllFit, OpsOf, Literals, CopyOps;
    PiecesInFront(base, target[done..t], off, len, rest);
    SlicesJoin(target, done, t, t + len);
  }

  lemma SlicesJoin(s: seq<byte>, i: nat, j: nat, k: nat)
    requires i <= j <= k <= |s|
    ensures s[i..j] + (s[j..k] + s[k..]) == s[i..]
  {}

  lemma EndTiles(idx: DeltaIndex, hash: seq<byte> -> int, target: seq<byte>, done: nat)
    requires done <= |target|
    ensures Tiles(idx.base, Plan(idx, hash, target, done, |target|), target, done)
  {
    hide Plan, AllMeant, AllFit, OpsOf;
    PlanEnds(idx, hash, target, done);
    OnePiece(idx.base, target[done..]);
  }

  lemma CopyTiles(idx: DeltaIndex, hash: seq<byte> -> int, target: seq<byte>, done: nat, t: nat, off: nat, len: nat)
    requires done <= t < |target| && BestAt(idx, hash, target, t) == (off, len) && DELTA_WIN <= len && t + len <= |target|
    requires Tiles(idx.base, Plan(idx, hash, target, t + len, t + len), target, t + len)
    ensures Tiles(idx.base, Plan(idx, hash, target, done, t), target, done)
  {
    hide BestAt, Plan, Tiles;
    BestMatches(idx, hash, target, t);
    PlanCopies(idx, hash, target, done, t, off, len);
    TilesInFront(idx.base, target, done, t, off, len, Plan(idx, hash, target, t + len, t + len));
  }

  lemma {:induction false} PlanIsTarget(idx: DeltaIndex, hash: seq<byte> -> int, target: seq<byte>, done: nat, t: nat)
    requires done <= t <= |target|
    ensures Tiles(idx.base, Plan(idx, hash, target, done, t), target, done)
    decreases |target| - t
  {
    hide BestAt, Plan, Tiles;
    if t == |target| {
      EndTiles(idx, hash, target, done);
    } else {
      var best := BestAt(idx, hash, target, t);
      if DELTA_WIN <= best.1 && t + best.1 <= |target| {
        PlanIsTarget(idx, hash, target, t + best.1, t + best.1);
        CopyTiles(idx, hash, target, done, t, best.0, best.1);
      } else {
        PlanWaits(idx, hash, target, done, t);
        PlanIsTarget(idx, hash, target, done, t + 1);
      }
    }
  }

  lemma OnePiece(base: seq<byte>, bytes: seq<byte>)
    ensures AllFit(base, [Literal(bytes)]) && AllMeant(base, [Literal(bytes)]) == bytes
    ensures OpsOf([Literal(bytes)]) == Literals(bytes)
  {
    hide Literals;
    var plan := [Literal(bytes)];
    assert plan[1..] == [];
    assert AllMeant(base, []) == [] && OpsOf([]) == [];
    assert bytes + [] == bytes && Literals(bytes) + [] == Literals(bytes);
  }

  lemma BestMatches(idx: DeltaIndex, hash: seq<byte> -> int, target: seq<byte>, t: nat)
    ensures var (off, len) := BestAt(idx, hash, target, t);
      len >= DELTA_WIN ==> off + len <= |idx.base| && t + len <= |target| && idx.base[off..off + len] == target[t..t + len]
    ensures BestAt(idx, hash, target, t).1 > 0 ==> BestAt(idx, hash, target, t).1 >= DELTA_WIN
  {
    BestIsLongest(idx.base, Candidates(idx, hash, target, t), target, t);
  }

  lemma PiecesInFront(base: seq<byte>, bytes: seq<byte>, off: nat, len: nat, rest: seq<Piece>)
    requires AllFit(base, rest) && off + len <= |base|
    ensures var plan := [Literal(bytes), FromBase(off, len)] + rest;
      && AllFit(base, plan) && OpsOf(plan) == Literals(bytes) + (CopyOps(off, len) + OpsOf(rest))
      && AllMeant(base, plan) == bytes + (base[off..off + len] + AllMeant(base, rest))
  {
    hide Literals, CopyOps;
    var plan := [Literal(bytes), FromBase(off, len)] + rest;
    assert plan[1..][1..] == rest;
    assert plan[1..][0] == FromBase(off, len);
  }

  /** The operations of the delta: a copy where a window matches, literals elsewhere. */
  method EncodeOps(idx: DeltaIndex, hash: seq<byte> -> int, target: seq<byte>) returns (ops: seq<byte>)
    requires Indexed(idx)
    ensures ops == OpsOf(Plan(idx, hash, target, 0, 0))
  {
    hide Indexed, BestAt, Literals, CopyOps, OpsOf, Plan, AllMeant, AllFit;
    ops := [];
    var pending: seq<byte>, t := [], 0;
    ghost var done: nat := 0;
    while t < |target|
      invariant done <= t <= |target| && pending == target[done..t]
      invariant ops + OpsOf(Plan(idx, hash, target, done, t)) == OpsOf(Plan(idx, hash, target, 0, 0))
    {
      var off, len := BestMatch(idx, hash, target, t);
      BestMatches(idx, hash, target, t);
      if len >= DELTA_WIN {
        PlanCopies(idx, hash, target, done, t, off, len);
        PlanIsTarget(idx, hash, target, t + len, t + len);
        PiecesInFront(idx.base, pending, off, len, Plan(idx, hash, target, t + len, t + len));
        ops := FlushInsert(ops, pending);
        ops := EmitCopy(ops, off, len);
        pending, t := [], t + len;
        done := t;
      } else {
        PlanWaits(idx, hash, target, done, t);
        assert target[done..t + 1] == target[done..t] + [target[t]];
        pending, t := pending + [target[t]], t + 1;
      }
    }
    PlanEnds(idx, hash, target, done);
    OnePiece(idx.base, pending);
    assert target[done..t] == target[done..];
    ops := FlushInsert(ops, pending);
  }

  // ----- the whole delta -----------------------------------------------------------------------------------

  function Encoded(idx: DeltaIndex, hash: seq<byte> -> int, target: seq<byte>): seq<byte> {
    SizeBytes(|idx.base|) + SizeBytes(|target|) + OpsOf(Plan(idx, hash, target, 0, 0))
  }

  /** The header in front of operations that yield some bytes of the right length. */
  lemma HeaderThenOps(base: seq<byte>, target: seq<byte>, ops: seq<byte>, out: seq<byte>)
    requires |base| < U64 && |out| == |target| < U64 && Run(base, ops) == Ok(out)
    ensures ApplyDelta(base, SizeBytes(|base|) + SizeBytes(|target|) + ops) ==
      if |target| <= MAX_OBJECT_SIZE then Ok(out) else Corrupt
  {
    hide Run, ApplyDelta, SizeBytes;
    HeaderDecides(base, |base|, |target|, ops);
  }

  /** For every base and target: the delta decodes to bytes of the target's length, up to the 2 GiB
      result cap, and to the target itself exactly if no copy is changed by the cut. */
  lemma EncodedIsRightIff(idx: DeltaIndex, hash: seq<byte> -> int, target: seq<byte>)
    requires |idx.base| < U64 && |target| < U64
    ensures var plan := Plan(idx, hash, target, 0, 0); AllFit(idx.base, plan) && |AllDecoded(idx.base, plan)| == |target|
    ensures ApplyDelta(idx.base, Encoded(idx, hash, target)) ==
      if |target| <= MAX_OBJECT_SIZE then Ok(AllDecoded(idx.base, Plan(idx, hash, target, 0, 0))) else Corrupt
    ensures |target| <= MAX_OBJECT_SIZE ==>
      (ApplyDelta(idx.base, Encoded(idx, hash, target)) == Ok(target) <==> SurvivesCut(idx.base, Plan(idx, hash, target, 0, 0)))
  {
    hide Plan, OpsOf, ApplyDelta, SizeBytes, SurvivesCut, AllDecoded, AllMeant;
    var plan := Plan(idx, hash, target, 0, 0);
    PlanIsTarget(idx, hash, target, 0, 0);
    assert target[0..] == target;
    OpsRun(idx.base, plan);
    DecodedAsMeantIff(idx.base, plan);
    HeaderThenOps(idx.base, target, OpsOf(plan), AllDecoded(idx.base, plan));
  }

  /** Applying `delta` to `base` gives back `target`, up to the 2 GiB result cap;
      beyond the cap the applier refuses it. */
  predicate Encodes(base: seq<byte>, delta: seq<byte>, target: seq<byte>) {
    |base| <= MAX_BASE ==> ApplyDelta(base, delta) == if |target| <= MAX_OBJECT_SIZE then Ok(target) else Corrupt
  }

  lemma EncodedBelowLimit(idx: DeltaIndex, hash: seq<byte> -> int, target: seq<byte>)
    requires |target| < U64
    ensures Encodes(idx.base, Encoded(idx, hash, target), target)
  {
    hide Plan, Encoded, ApplyDelta, AllDecoded, AllMeant;
    if |idx.base| <= MAX_BASE {
      EncodedIsRightIff(idx, hash, target);
      var plan := Plan(idx, hash, target, 0, 0);
      forall i | 0 <= i < |plan| ensures Decoded(idx.base, plan[i]) == Meant(idx.base, plan[i]) {
        if plan[i].FromBase? { FetchedBelowLimit(idx.base, plan[i].off, plan[i].len); }
      }
    }
  }

  /** Whatever the window hash, the delta turns a base of up to 4 GiB into the target. */
  method Encode(idx: DeltaIndex, hash: seq<byte> -> int, target: seq<byte>) returns (delta: seq<byte>)
    requires Indexed(idx) && |target| < U64
    ensures delta == Encoded(idx, hash, target) && Encodes(idx.base, delta, target)
  {
    hide Plan, OpsOf, ApplyDelta, Encodes;
    delta := WriteSizeVarint([], |idx.base|);
    delta := WriteSizeVarint(delta, |target|);
    assert delta == SizeBytes(|idx.base|) + SizeBytes(|target|);
    var ops := EncodeOps(idx, hash, target);
    delta := delta + ops;
    EncodedBelowLimit(idx, hash, target);
  }

  /** The delta the encoder makes of `target` against `base`. */
  function DeltaFor(base: seq<byte>, hash: seq<byte> -> int, target: seq<byte>): seq<byte> {
    Encoded(FullIndex(base, hash), hash, target)
  }

  method EncodeDelta(base: seq<byte>, hash: seq<byte> -> int, target: seq<byte>) returns (delta: seq<byte>, ghost idx: DeltaIndex)
    requires |target| < U64
    ensures idx.base == base && IndexOf(idx, hash) && delta == Encoded(idx, hash, target)
    ensures Encodes(base, delta, target) && delta == DeltaFor(base, hash, target)
  {
    hide Encoded, Encodes, IndexOf;
    var index := BuildIndex(base, hash);
    assert Indexed(index) by { IndexOfIsIndexed(index, hash); }
    delta := Encode(index, hash, target);
    idx := index;
  }

  lemma IndexOfIsIndexed(idx: DeltaIndex, hash: seq<byte> -> int)
    requires IndexOf(idx, hash)
    ensures Indexed(idx)
  {}
}
