/**
 The copy/insert delta format: what a delta means, the bounds-checked applier, and
 the greedy block-hash encoder.
 */
module Delta {
  import opened Bytes
  import opened Varints

  /** 2 GiB, the largest result a delta may declare. */
  const MAX_OBJECT_SIZE: nat := 0x8000_0000
  const DELTA_WIN: nat := 16
  const MAX_INSERT: nat := 127
  const MAX_COPY: nat := 0xff_ffff

  datatype Instr = Copy(off: nat, size: nat) | Insert(bytes: seq<byte>)

  // ----- what a delta means -----------------------------------------------------------

  /** A little-endian field of `n` bytes of which only the flagged ones are present.
      Returns the value and the number of bytes read. */
  function ReadField(flags: nat, n: nat, d: seq<byte>): (r: Result<(nat, nat)>)
    ensures r.Ok? ==> r.value.1 <= |d|
    decreases n
  {
    if n == 0 then Ok((0, 0))
    else if flags % 2 == 0 then
      var (v, used) :- ReadField(flags / 2, n - 1, d);
      Ok((256 * v, used))
    else if d == [] then Corrupt
    else
      var (v, used) :- ReadField(flags / 2, n - 1, d[1..]);
      Ok((d[0] + 256 * v, used + 1))
  }

  /** The offset and size fields behind a copy opcode; an absent size is 64 KiB. */
  function ReadCopy(op: byte, offBytes: nat, sizeBytes: nat, d: seq<byte>): (r: Result<(Instr, nat)>)
    ensures r.Ok? ==> r.value.1 <= |d|
  {
    var (off, n1) :- ReadField(op, offBytes, d);
    var (size, n2) :- ReadField(op / 16, sizeBytes, d[n1..]);
    Ok((Copy(off, if size == 0 then 0x10000 else size), n1 + n2))
  }

  function ReadInstr(d: seq<byte>): (r: Result<(Instr, nat)>)
    requires d != []
    ensures r.Ok? ==> 0 < r.value.1 <= |d|
  {
    var op := d[0];
    if op >= 128 then
      var (i, n) :- ReadCopy(op, 4, 3, d[1..]);
      Ok((i, 1 + n))
    else if op == 0 || 1 + op > |d| then Corrupt
    else Ok((Insert(d[1..1 + op]), 1 + op))
  }

  function Exec(base: seq<byte>, i: Instr): Result<seq<byte>> {
    match i
    case Insert(bytes) => Ok(bytes)
    case Copy(off, size) => if off + size <= |base| then Ok(base[off..off + size]) else Corrupt
  }

  /** The bytes a sequence of encoded instructions produces. */
  function Run(base: seq<byte>, d: seq<byte>): Result<seq<byte>>
    decreases |d|
  {
    if d == [] then Ok([])
    else
      var (i, n) :- ReadInstr(d);
      var chunk :- Exec(base, i);
      var rest :- Run(base, d[n..]);
      Ok(chunk + rest)
  }

  function ApplyDelta(base: seq<byte>, delta: seq<byte>): Result<seq<byte>> {
    var (baseSize, n1) :- ReadSize(delta);
    if baseSize != |base| then Corrupt
    else
      var (resultSize, n2) :- ReadSize(delta[n1..]);
      if resultSize > MAX_OBJECT_SIZE then Corrupt
      else
        var out :- Run(base, delta[n1 + n2..]);
        if |out| == resultSize then Ok(out) else Corrupt
  }

  // ----- instructions compose ------------------------------------------------------------

  lemma {:induction false} ReadFieldPrefix(flags: nat, n: nat, a: seq<byte>, b: seq<byte>)
    requires ReadField(flags, n, a).Ok?
    ensures ReadField(flags, n, a + b) == ReadField(flags, n, a)
    decreases n
  {
    if n > 0 {
      if flags % 2 == 0 {
        ReadFieldPrefix(flags / 2, n - 1, a, b);
      } else {
        assert (a + b)[1..] == a[1..] + b;
        ReadFieldPrefix(flags / 2, n - 1, a[1..], b);
      }
    }
  }

  lemma ReadCopyPrefix(op: byte, m: nat, n: nat, a: seq<byte>, b: seq<byte>)
    requires ReadCopy(op, m, n, a).Ok?
    ensures ReadCopy(op, m, n, a + b) == ReadCopy(op, m, n, a)
  {
    hide ReadField;
    ReadFieldPrefix(op, m, a, b);
    var n1 := ReadField(op, m, a).value.1;
    assert (a + b)[n1..] == a[n1..] + b;
    ReadFieldPrefix(op / 16, n, a[n1..], b);
  }

  lemma ReadInstrPrefix(a: seq<byte>, b: seq<byte>)
    requires a != [] && ReadInstr(a).Ok?
    ensures ReadInstr(a + b) == ReadInstr(a)
  {
    hide ReadCopy;
    var op := a[0];
    if op >= 128 {
      assert (a + b)[1..] == a[1..] + b;
      ReadCopyPrefix(op, 4, 3, a[1..], b);
    } else {
      assert (a + b)[1..1 + op] == a[1..1 + op];
    }
  }

  /** Running two pieces one after the other. */
  lemma {:induction false} RunConcat(base: seq<byte>, a: seq<byte>, b: seq<byte>)
    requires Run(base, a).Ok? && Run(base, b).Ok?
    ensures Run(base, a + b) == Ok(Run(base, a).value + Run(base, b).value)
    decreases |a|
  {
    hide ReadInstr, Exec;
    if a == [] {
      assert a + b == b;
      assert [] + Run(base, b).value == Run(base, b).value;
    } else {
      ReadInstrPrefix(a, b);
      var (i, n) := ReadInstr(a).value;
      var chunk := Exec(base, i).value;
      assert (a + b)[n..] == a[n..] + b;
      RunConcat(base, a[n..], b);
      var x, y := Run(base, a[n..]).value, Run(base, b).value;
      assert chunk + (x + y) == (chunk + x) + y;
    }
  }

  /** A header naming any two sizes: the delta applies exactly if the first is the base's length, the
      second is within 2 GiB, and the operations yield that many bytes. */
  lemma HeaderDecides(base: seq<byte>, m: nat, n: nat, ops: seq<byte>)
    requires m < U64 && n < U64
    ensures ApplyDelta(base, SizeBytes(m) + SizeBytes(n) + ops) ==
      if m == |base| && n <= 0x8000_0000 && Run(base, ops).Ok? && |Run(base, ops).value| == n
      then Run(base, ops) else Corrupt
  {
    hide Run, ReadSize, SizeBytes;
    var x, y := SizeBytes(m), SizeBytes(n);
    var delta := x + y + ops;
    assert delta == x + (y + ops);
    SizeRoundTrip(m, y + ops);
    assert delta[|x|..] == y + ops;
    SizeRoundTrip(n, ops);
    assert delta[|x| + |y|..] == ops;
  }

  // ----- one copy, one insert ---------------------------------------------------------------

  function FieldFlags(v: nat, n: nat): nat
    decreases n
  {
    if n == 0 then 0 else (if v % 256 == 0 then 0 else 1) + 2 * FieldFlags(v / 256, n - 1)
  }

  function FieldBytes(v: nat, n: nat): seq<byte>
    decreases n
  {
    if n == 0 then [] else (if v % 256 == 0 then [] else [v % 256]) + FieldBytes(v / 256, n - 1)
  }

  function Pow2(n: nat): (p: nat)
    ensures p > 0
  {
    if n == 0 then 1 else 2 * Pow2(n - 1)
  }

  function Pow256(n: nat): nat {
    if n == 0 then 1 else 256 * Pow256(n - 1)
  }

  lemma {:induction false} FlagsBounded(v: nat, n: nat)
    ensures FieldFlags(v, n) < Pow2(n)
    decreases n
  {
    if n > 0 { FlagsBounded(v / 256, n - 1); }
  }

  lemma ReadFieldUnfolds(flags: nat, n: nat, d: seq<byte>)
    requires n > 0
    ensures flags % 2 == 0 ==> ReadField(flags, n, d) == Shifted([], ReadField(flags / 2, n - 1, d))
    ensures flags % 2 != 0 && d == [] ==> ReadField(flags, n, d) == Corrupt
    ensures flags % 2 != 0 && d != [] ==> ReadField(flags, n, d) == Shifted([d[0]], ReadField(flags / 2, n - 1, d[1..]))
  {}

  /** A field read one byte further on, with that byte put below it. */
  function Shifted(low: seq<byte>, r: Result<(nat, nat)>): Result<(nat, nat)>
    requires |low| <= 1
  {
    if r.Corrupt? then Corrupt else Ok(((if low == [] then 0 else low[0] as int) + 256 * r.value.0, r.value.1 + |low|))
  }

  lemma FieldUnfolds(v: nat, n: nat)
    requires n > 0
    ensures FieldFlags(v, n) % 2 == (if v % 256 == 0 then 0 else 1) && FieldFlags(v, n) / 2 == FieldFlags(v / 256, n - 1)
    ensures FieldBytes(v, n) == (if v % 256 == 0 then [] else [v % 256]) + FieldBytes(v / 256, n - 1)
  {}

  lemma HighFlagsHalve(f: nat, g: nat, n: nat)
    requires n > 0
    ensures (f + Pow2(n) * g) % 2 == f % 2 && (f + Pow2(n) * g) / 2 == f / 2 + Pow2(n - 1) * g
  {
    var k := Pow2(n - 1) * g;
    assert Pow2(n) * g == 2 * k;
    EvenPart(f, k);
  }

  lemma EvenPart(f: nat, k: nat)
    ensures (f + 2 * k) % 2 == f % 2 && (f + 2 * k) / 2 == f / 2 + k
  {}

  lemma LowByte(v: nat, k: nat)
    ensures (v + 256 * k) % 256 == v % 256 && (v + 256 * k) / 256 == v / 256 + k
  {}

  /** Flags above the field's own bits are not looked at. */
  lemma {:induction false} HighFlagsIgnored(f: nat, g: nat, n: nat, d: seq<byte>)
    ensures ReadField(f + Pow2(n) * g, n, d) == ReadField(f, n, d)
    decreases n
  {
    if n > 0 {
      hide ReadField, Pow2, Shifted;
      HighFlagsHalve(f, g, n);
      ReadFieldUnfolds(f, n, d);
      ReadFieldUnfolds(f + Pow2(n) * g, n, d);
      if f % 2 == 0 {
        HighFlagsIgnored(f / 2, g, n - 1, d);
      } else if d != [] {
        HighFlagsIgnored(f / 2, g, n - 1, d[1..]);
      }
    }
  }

  lemma {:induction false} FieldRoundTrip(v: nat, n: nat, rest: seq<byte>)
    requires v < Pow256(n)
    ensures ReadField(FieldFlags(v, n), n, FieldBytes(v, n) + rest) == Ok((v, |FieldBytes(v, n)|))
    decreases n
  {
    if n > 0 {
      assert v / 256 < Pow256(n - 1);
      hide ReadField, FieldFlags, FieldBytes, Pow256;
      FieldRoundTrip(v / 256, n - 1, rest);
      FieldUnfolds(v, n);
      var d := FieldBytes(v, n) + rest;
      ReadFieldUnfolds(FieldFlags(v, n), n, d);
      if v % 256 == 0 {
        assert d == FieldBytes(v / 256, n - 1) + rest;
      } else {
        assert d[1..] == FieldBytes(v / 256, n - 1) + rest;
      }
    }
  }

  function CopyOp(off: nat, size: nat): byte {
    FlagsBounded(off, 4);
    FlagsBounded(size, 3);
    assert Pow2(4) == 16 && Pow2(3) == 8;
    128 + FieldFlags(off, 4) + 16 * FieldFlags(size, 3)
  }

  function CopyBytes(off: nat, size: nat): seq<byte> {
    [CopyOp(off, size)] + (FieldBytes(off, 4) + FieldBytes(size, 3))
  }

  lemma CopyFieldsReadBack(op: byte, m: nat, n: nat, off: nat, size: nat)
    requires off < Pow256(m) && size < Pow256(n)
    requires op == 128 + FieldFlags(off, m) + 16 * FieldFlags(size, n)
    requires Pow2(m) == 16 && Pow2(n) == 8
    ensures ReadCopy(op, m, n, FieldBytes(off, m) + FieldBytes(size, n)) ==
      Ok((Copy(off, if size == 0 then 65536 else size), |FieldBytes(off, m)| + |FieldBytes(size, n)|))
  {
    hide ReadField, FieldFlags, FieldBytes, Pow2, Pow256;
    var f, g, x, y := FieldFlags(off, m), FieldFlags(size, n), FieldBytes(off, m), FieldBytes(size, n);
    FlagsBounded(off, m);
    HighFlagsIgnored(f, 8 + g, m, x + y);
    FieldRoundTrip(off, m, y);
    assert (x + y)[|x|..] == y;
    HighFlagsIgnored(g, 1, n, y);
    FieldRoundTrip(size, n, []);
    assert y + [] == y;
  }

  lemma FieldWidths()
    ensures Pow256(4) == 0x1_0000_0000 && Pow256(3) == 0x100_0000 && Pow2(4) == 16 && Pow2(3) == 8
  {}

  /** Every offset below 2^32 and every size below 2^24 reads back from an opcode that flags exactly
      the nonzero bytes; with no size byte at all the copy is 64 KiB long. */
  lemma CopyReadsBack(off: nat, size: nat)
    requires off < 0x1_0000_0000 && size < 0x100_0000
    ensures ReadInstr(CopyBytes(off, size)) ==
      Ok((Copy(off, if size == 0 then 65536 else size), |CopyBytes(off, size)|))
  {
    hide Pow256, Pow2, FieldFlags, FieldBytes, ReadCopy;
    var d := CopyBytes(off, size);
    FieldWidths();
    CopyFieldsReadBack(CopyOp(off, size), 4, 3, off, size);
    assert d[1..] == FieldBytes(off, 4) + FieldBytes(size, 3);
  }

  /** Only the low `n` bytes of a value are ever written. */
  lemma {:induction false} HighBytesDropped(v: nat, q: nat, n: nat)
    ensures FieldFlags(v + Pow256(n) * q, n) == FieldFlags(v, n)
    ensures FieldBytes(v + Pow256(n) * q, n) == FieldBytes(v, n)
    decreases n
  {
    if n > 0 {
      var k := Pow256(n - 1) * q;
      assert Pow256(n) * q == 256 * k;
      LowByte(v, k);
      hide Pow256;
      HighBytesDropped(v / 256, q, n - 1);
    }
  }

  /** A copy is decoded with its offset modulo 2^32, so it is exact precisely for
      offsets below 2^32. */
  lemma CopyIsExactIffOffsetFits(off: nat, size: nat)
    requires 0 < size <= MAX_COPY
    ensures ReadInstr(CopyBytes(off, size)) == Ok((Copy(off % 0x1_0000_0000, size), |CopyBytes(off, size)|))
    ensures ReadInstr(CopyBytes(off, size)).value.0 == Copy(off, size) <==> off < 0x1_0000_0000
  {
    hide ReadInstr, FieldFlags, FieldBytes;
    var low, q := off % 0x1_0000_0000, off / 0x1_0000_0000;
    assert Pow256(4) == 0x1_0000_0000;
    HighBytesDropped(low, q, 4);
    assert low + Pow256(4) * q == off;
    assert CopyBytes(off, size) == CopyBytes(low, size);
    CopyReadsBack(low, size);
  }

  /** Running an emitted copy reads from its offset modulo 2^32. */
  lemma CopyRuns(base: seq<byte>, off: nat, size: nat)
    requires off + size <= |base| && 0 < size <= MAX_COPY
    ensures var low := off % 0x1_0000_0000; low + size <= |base| && Run(base, CopyBytes(off, size)) == Ok(base[low..low + size])
  {
    hide ReadInstr, CopyBytes;
    var low, d := off % 0x1_0000_0000, CopyBytes(off, size);
    CopyIsExactIffOffsetFits(off, size);
    assert d[|d|..] == [];
    assert base[low..low + size] + [] == base[low..low + size];
  }

  lemma InsertRuns(base: seq<byte>, bytes: seq<byte>)
    requires 0 < |bytes| <= MAX_INSERT
    ensures Run(base, [|bytes|] + bytes) == Ok(bytes)
  {
    var d := [|bytes|] + bytes;
    assert d[1..1 + |bytes|] == bytes;
    assert d[|d|..] == [];
    assert bytes + [] == bytes;
  }

  /** A delta of one copy yields that stretch of the base, 64 KiB of it where the size is left out,
      and is refused where the stretch runs over the base's end. */
  lemma OneCopyApplies(base: seq<byte>, off: nat, size: nat)
    requires |base| < U64 && off < 0x1_0000_0000 && size < 0x100_0000
    ensures var n := if size == 0 then 65536 else size;
      ApplyDelta(base, SizeBytes(|base|) + SizeBytes(n) + CopyBytes(off, size)) ==
        if off + n <= |base| then Ok(base[off..off + n]) else Corrupt
  {
    hide ReadInstr, CopyBytes, ApplyDelta, SizeBytes;
    var n, d := if size == 0 then 65536 else size, CopyBytes(off, size);
    CopyReadsBack(off, size);
    HeaderDecides(base, |base|, n, d);
    assert d[|d|..] == [];
    if off + n <= |base| { assert base[off..off + n] + [] == base[off..off + n]; }
  }

  /** An instruction is refused exactly if its opcode is zero, its literal is cut short, or one of the
      bytes its copy flags is missing. */
  lemma RefusedInstr(d: seq<byte>)
    requires d != []
    ensures ReadInstr(d).Corrupt? <==>
      d[0] == 0 || (0 < d[0] < 128 && |d| < 1 + d[0]) || (d[0] >= 128 && |d| < 1 + Flagged(d[0], 4) + Flagged(d[0] / 16, 3))
    ensures 0 < d[0] < 128 && 1 + d[0] <= |d| ==> ReadInstr(d) == Ok((Insert(d[1..1 + d[0]]), 1 + d[0]))
  {
    hide ReadField, Flagged;
    if d[0] >= 128 {
      FieldNeeds(d[0], 4, d[1..]);
      if ReadField(d[0], 4, d[1..]).Ok? {
        FieldNeeds(d[0] / 16, 3, d[1..][ReadField(d[0], 4, d[1..]).value.1..]);
      }
    }
  }

  /** How many of the low `n` flags are set. */
  function Flagged(flags: nat, n: nat): nat
    decreases n
  {
    if n == 0 then 0 else flags % 2 + Flagged(flags / 2, n - 1)
  }

  lemma {:induction false} FieldNeeds(flags: nat, n: nat, d: seq<byte>)
    ensures ReadField(flags, n, d).Ok? <==> Flagged(flags, n) <= |d|
    ensures ReadField(flags, n, d).Ok? ==> ReadField(flags, n, d).value.1 == Flagged(flags, n)
    decreases n
  {
    if n > 0 {
      hide ReadField;
      ReadFieldUnfolds(flags, n, d);
      if flags % 2 == 0 {
        FieldNeeds(flags / 2, n - 1, d);
      } else if d != [] {
        FieldNeeds(flags / 2, n - 1, d[1..]);
      }
    } else {
      FieldDone(flags, d);
    }
  }

  // ----- the applier ---------------------------------------------------------------------------

  lemma FieldStep(flags: nat, n: nat, delta: seq<byte>, p: nat, acc: nat, scale: nat)
    requires p <= |delta| && n > 0
    ensures flags % 2 == 0 ==>
      Complete(acc, scale, p, ReadField(flags, n, delta[p..])) ==
      Complete(acc, scale * 256, p, ReadField(flags / 2, n - 1, delta[p..]))
    ensures flags % 2 == 1 && p == |delta| ==> Complete(acc, scale, p, ReadField(flags, n, delta[p..])) == Corrupt
    ensures flags % 2 == 1 && p < |delta| ==>
      Complete(acc, scale, p, ReadField(flags, n, delta[p..])) ==
      Complete(acc + scale * delta[p], scale * 256, p + 1, ReadField(flags / 2, n - 1, delta[p + 1..]))
  {
    hide ReadField;
    ReadFieldUnfolds(flags, n, delta[p..]);
    if flags % 2 == 0 {
      ShiftCompletes(acc, scale, p, 0, ReadField(flags / 2, n - 1, delta[p..]));
    } else if p < |delta| {
      assert delta[p..][1..] == delta[p + 1..];
      ShiftCompletes(acc, scale, p, delta[p], ReadField(flags / 2, n - 1, delta[p + 1..]));
    }
  }

  lemma ShiftCompletes(acc: nat, scale: nat, p: nat, low: byte, r: Result<(nat, nat)>)
    ensures Complete(acc, scale, p, Shifted([], r)) == Complete(acc, scale * 256, p, r)
    ensures Complete(acc, scale, p, Shifted([low], r)) == Complete(acc + scale * low, scale * 256, p + 1, r)
  {
    if r.Ok? {
      assert scale * (256 * r.value.0) == scale * 256 * r.value.0;
      assert scale * (low + 256 * r.value.0) == scale * low + scale * (256 * r.value.0);
    }
  }

  /** Reads the flagged bytes of one little-endian field. */
  method ReadFlagged(opcode: nat, width: nat, delta: seq<byte>, start: nat) returns (r: Result<(nat, nat)>)
    requires start <= |delta|
    ensures r == Complete(0, 1, start, ReadField(opcode, width, delta[start..]))
  {
    hide ReadField;
    ghost var want := Complete(0, 1, start, ReadField(opcode, width, delta[start..]));
    var flags, p: nat, acc: nat, scale: nat := opcode, start, 0, 1;
    for i := 0 to width
      invariant p <= |delta|
      invariant want == Complete(acc, scale, p, ReadField(flags, width - i, delta[p..]))
    {
      FieldStep(flags, width - i, delta, p, acc, scale);
      if flags % 2 == 1 {
        if p >= |delta| { return Corrupt; }
        acc := acc + scale * delta[p];
        p := p + 1;
      }
      flags, scale := flags / 2, scale * 256;
    }
    FieldDone(flags, delta[p..]);
    r := Ok((acc, p));
  }

  lemma FieldDone(flags: nat, d: seq<byte>)
    ensures ReadField(flags, 0, d) == Ok((0, 0))
  {}

  /** Output so far, completed by what the rest of the delta produces. */
  function Continued(out: seq<byte>, r: Result<seq<byte>>): Result<seq<byte>> {
    match r
    case Ok(x) => Ok(out + x)
    case Corrupt => Corrupt
  }

  lemma RunStep(base: seq<byte>, delta: seq<byte>, p: nat, out: seq<byte>)
    requires p < |delta|
    ensures ReadInstr(delta[p..]).Corrupt? ==> Run(base, delta[p..]).Corrupt?
    ensures ReadInstr(delta[p..]).Ok? && Exec(base, ReadInstr(delta[p..]).value.0).Corrupt? ==> Run(base, delta[p..]).Corrupt?
    ensures ReadInstr(delta[p..]).Ok? && Exec(base, ReadInstr(delta[p..]).value.0).Ok? ==>
      var (i, n) := ReadInstr(delta[p..]).value;
      Continued(out, Run(base, delta[p..])) == Continued(out + Exec(base, i).value, Run(base, delta[p + n..]))
  {
    hide ReadInstr, Exec;
    var r := ReadInstr(delta[p..]);
    if r.Ok? && Exec(base, r.value.0).Ok? {
      var (i, n) := r.value;
      assert delta[p..][n..] == delta[p + n..];
      var rest := Run(base, delta[p + n..]);
      if rest.Ok? { assert out + (Exec(base, i).value + rest.value) == (out + Exec(base, i).value) + rest.value; }
    }
  }

  /** Decodes the instruction at `p`, with every access bounds-checked. */
  method NextInstr(delta: seq<byte>, p: nat) returns (r: Result<(Instr, nat)>)
    requires p < |delta|
    ensures ReadInstr(delta[p..]).Corrupt? ==> r.Corrupt?
    ensures ReadInstr(delta[p..]).Ok? ==>
      r == Ok((ReadInstr(delta[p..]).value.0, p + ReadInstr(delta[p..]).value.1))
  {
    hide ReadField;
    var op := delta[p];
    assert delta[p..][1..] == delta[p + 1..];
    if op >= 128 {
      var off := ReadFlagged(op, 4, delta, p + 1);
      if off.Corrupt? { return Corrupt; }
      var q := off.value.1;
      assert delta[p + 1..][q - (p + 1)..] == delta[q..];
      var size := ReadFlagged(op / 16, 3, delta, q);
      if size.Corrupt? { return Corrupt; }
      return Ok((Copy(off.value.0, if size.value.0 == 0 then 0x10000 else size.value.0), size.value.1));
    }
    if op == 0 || p + 1 + op > |delta| { return Corrupt; }
    assert delta[p..][1..1 + op] == delta[p + 1..p + 1 + op];
    r := Ok((Insert(delta[p + 1..p + 1 + op]), p + 1 + op));
  }

  /** The instruction loop, stopping as soon as the output passes the cap. */
  method RunCapped(base: seq<byte>, delta: seq<byte>, start: nat) returns (r: Result<seq<byte>>)
    requires start <= |delta|
    ensures r.Ok? ==> r == Run(base, delta[start..])
    ensures r.Corrupt? ==> Run(base, delta[start..]).Corrupt? || |Run(base, delta[start..]).value| > MAX_OBJECT_SIZE
  {
    hide ReadInstr, Run;
    ghost var want := Run(base, delta[start..]);
    var p, out := start, [];
    assert want.Ok? ==> out + want.value == want.value;
    while p < |delta|
      invariant start <= p <= |delta|
      invariant want == Continued(out, Run(base, delta[p..]))
    {
      RunStep(base, delta, p, out);
      var i := NextInstr(delta, p);
      if i.Corrupt? { return Corrupt; }
      match i.value.0 {
        case Copy(off, size) =>
          if off + size > |base| { return Corrupt; }
          out := out + base[off..off + size];
        case Insert(bytes) =>
          out := out + bytes;
      }
      p := i.value.1;
      if |out| > MAX_OBJECT_SIZE { return Corrupt; }
    }
    RunDone(base, delta[p..]);
    assert out + [] == out;
    r := Ok(out);
  }

  lemma RunDone(base: seq<byte>, d: seq<byte>)
    requires d == []
    ensures Run(base, d) == Ok([])
  {}

  /** The bounds-checked applier computes exactly what the delta means. */
  method Apply(base: seq<byte>, delta: seq<byte>) returns (r: Result<seq<byte>>)
    ensures r == ApplyDelta(base, delta)
  {
    hide Run, ReadSize;
    assert delta[0..] == delta;
    var baseSize := ReadSizeVarint(delta, 0);
    if baseSize.Corrupt? || baseSize.value.0 != |base| { return Corrupt; }
    var p := baseSize.value.1;
    var resultSize := ReadSizeVarint(delta, p);
    if resultSize.Corrupt? || resultSize.value.0 > MAX_OBJECT_SIZE { return Corrupt; }
    var out := RunCapped(base, delta, resultSize.value.1);
    if out.Corrupt? || |out.value| != resultSize.value.0 { return Corrupt; }
    r := out;
  }
}
