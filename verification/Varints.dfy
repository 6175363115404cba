/**
 The two variable-length integers of the packfile format: the little-endian size
 varint of a delta header, and the big-endian base-offset varint of an offset delta.
 */
module Varints {
  import opened Bytes

  // ----- sizes ------------------------------------------------------------------

  /** Seven bits a byte, least significant first, high bit set on all but the last. */
  function SizeBytes(v: nat): (bytes: seq<byte>)
    ensures |bytes| > 0
  {
    if v < 128 then [v] else [v % 128 + 128] + SizeBytes(v / 128)
  }

  /** Digits of a word whose reader allows `left` more bytes after this one and keeps
      only the value modulo `keep` of the last one it allows. */
  function ReadDigits(d: seq<byte>, left: nat, keep: nat): (r: Result<(nat, nat)>)
    requires 0 < keep
    ensures r.Ok? ==> 0 < r.value.1 <= |d|
    decreases left
  {
    if d == [] then Corrupt
    else if d[0] < 128 then Ok((if left == 0 then d[0] % keep else d[0], 1))
    else if left == 0 then Corrupt
    else
      var (v, used) :- ReadDigits(d[1..], left - 1, keep);
      Ok((d[0] - 128 + 128 * v, used + 1))
  }

  /** Ten bytes at most; only one bit of the tenth fits a 64-bit word. */
  function ReadSize(d: seq<byte>): (r: Result<(nat, nat)>)
    ensures r.Ok? ==> 0 < r.value.1 <= |d|
  {
    ReadDigits(d, 9, 2)
  }

  /** What still fits the word from here on. */
  function Room(left: nat, keep: nat): nat {
    if left == 0 then keep else 128 * Room(left - 1, keep)
  }

  lemma {:induction false} DigitsRoundTrip(v: nat, left: nat, keep: nat, rest: seq<byte>)
    requires 0 < keep <= 128 && v < Room(left, keep)
    ensures ReadDigits(SizeBytes(v) + rest, left, keep) == Ok((v, |SizeBytes(v)|))
    decreases v
  {
    if v >= 128 {
      RoomAbove(v, left, keep);
      SizeBytesUnfold(v);
      hide SizeBytes, Room;
      DigitsRoundTrip(v / 128, left - 1, keep, rest);
      assert (SizeBytes(v) + rest)[1..] == SizeBytes(v / 128) + rest;
    }
  }

  lemma SizeBytesUnfold(v: nat)
    requires v >= 128
    ensures SizeBytes(v) == [v % 128 + 128] + SizeBytes(v / 128)
  {}

  lemma RoomAbove(v: nat, left: nat, keep: nat)
    requires 0 < keep <= 128 <= v < Room(left, keep)
    ensures left > 0 && v / 128 < Room(left - 1, keep)
  {}

  lemma RoomIsU64()
    ensures Room(9, 2) == U64 && Room(8, 16) == U64 / 16
  {
    assert Room(2, 2) == 32768 && Room(4, 2) == 536870912 && Room(6, 2) == 8796093022208;
    assert Room(2, 16) == 262144 && Room(4, 16) == 4294967296 && Room(6, 16) == 70368744177664;
  }

  lemma {:induction false} SizeIsShort(v: nat, left: nat, keep: nat)
    requires 0 < keep <= 128 && v < Room(left, keep)
    ensures |SizeBytes(v)| <= left + 1
    decreases left
  {
    if left > 0 && v >= 128 { SizeIsShort(v / 128, left - 1, keep); }
  }

  /** Every 64-bit size reads back, and the reader stops right after it. */
  lemma SizeRoundTrip(v: nat, rest: seq<byte>)
    requires v < U64
    ensures ReadSize(SizeBytes(v) + rest) == Ok((v, |SizeBytes(v)|))
  {
    hide SizeBytes, ReadDigits, Room;
    RoomIsU64();
    DigitsRoundTrip(v, 9, 2, rest);
  }

  method WriteSizeVarint(out: seq<byte>, value: nat) returns (r: seq<byte>)
    ensures r == out + SizeBytes(value)
  {
    r := out;
    var v := value;
    while v >= 128
      invariant r + SizeBytes(v) == out + SizeBytes(value)
    {
      r := r + [v % 128 + 128];
      v := v / 128;
    }
    r := r + [v];
  }

  /** A partial read completed by the digits that follow it. */
  function Complete(result: nat, scale: nat, used: nat, r: Result<(nat, nat)>): Result<(nat, nat)> {
    match r
    case Ok((v, n)) => Ok((result + scale * v, used + n))
    case Corrupt => Corrupt
  }

  /** One byte of the little-endian form: a shift keeps only the bits that fit. */
  function AddDigit(result: nat, scale: nat, left: nat, keep: nat, b: byte): (r: nat)
    requires 0 < keep
  {
    result + scale * (if left == 0 then b % keep else b % 128)
  }

  lemma CompleteDigit(data: seq<byte>, pos: nat, left: nat, keep: nat, result: nat, scale: nat)
    requires pos < |data| && data[pos] >= 128 && left > 0 && keep > 0
    ensures Complete(result, scale, pos, ReadDigits(data[pos..], left, keep)) ==
      Complete(AddDigit(result, scale, left, keep, data[pos]), scale * 128, pos + 1,
               ReadDigits(data[pos + 1..], left - 1, keep))
  {
    assert data[pos..][1..] == data[pos + 1..];
    match ReadDigits(data[pos + 1..], left - 1, keep)
    case Corrupt =>
    case Ok((v, n)) =>
      assert scale * (data[pos] - 128 + 128 * v) == scale * (data[pos] - 128) + scale * 128 * v;
  }

  lemma CompleteLast(data: seq<byte>, pos: nat, left: nat, keep: nat, result: nat, scale: nat)
    requires pos <= |data| && keep > 0
    ensures pos == |data| ==> Complete(result, scale, pos, ReadDigits(data[pos..], left, keep)) == Corrupt
    ensures pos < |data| && data[pos] >= 128 && left == 0 ==>
      Complete(result, scale, pos, ReadDigits(data[pos..], left, keep)) == Corrupt
    ensures pos < |data| && data[pos] < 128 ==>
      Complete(result, scale, pos, ReadDigits(data[pos..], left, keep)) ==
      Ok((AddDigit(result, scale, left, keep, data[pos]), pos + 1))
  {
    if pos < |data| && data[pos] < 128 {
      assert ReadDigits(data[pos..], left, keep) == Ok((if left == 0 then data[pos] % keep else data[pos] % 128, 1));
    }
  }

  /** The digit loop shared by the delta sizes and pack object headers. */
  method ReadDigitLoop(data: seq<byte>, start: nat, low: nat, unit: nat, digits: nat, keep: nat)
      returns (r: Result<(nat, nat)>)
    requires start <= |data| && keep > 0
    ensures r == Complete(low, unit, start, ReadDigits(data[start..], digits, keep))
  {
    hide ReadDigits;
    var pos: nat, result: nat, scale: nat, left: nat := start, low, unit, digits;
    ghost var want := Complete(low, unit, start, ReadDigits(data[start..], digits, keep));
    while pos < |data| && data[pos] >= 128 && left > 0
      invariant start <= pos <= |data|
      invariant want == Complete(result, scale, pos, ReadDigits(data[pos..], left, keep))
      decreases left
    {
      CompleteDigit(data, pos, left, keep, result, scale);
      result := AddDigit(result, scale, left, keep, data[pos]);
      pos, scale, left := pos + 1, scale * 128, left - 1;
    }
    CompleteLast(data, pos, left, keep, result, scale);
    if pos >= |data| || data[pos] >= 128 { return Corrupt; }
    r := Ok((AddDigit(result, scale, left, keep, data[pos]), pos + 1));
  }

  method ReadSizeVarint(data: seq<byte>, start: nat) returns (r: Result<(nat, nat)>)
    requires start <= |data|
    ensures r == Complete(0, 1, start, ReadSize(data[start..]))
  {
    r := ReadDigitLoop(data, start, 0, 1, 9, 2);
  }

  // ----- base offsets -------------------------------------------------------------

  /** All continuation bytes of an offset whose leading part is `v`. */
  function OfsHead(v: nat): (bytes: seq<byte>)
    ensures |bytes| > 0
  {
    if v < 128 then [128 + v] else OfsHead(v / 128 - 1) + [128 + v % 128]
  }

  function OfsBytes(off: nat): (bytes: seq<byte>)
    ensures |bytes| > 0
  {
    if off < 128 then [off] else OfsHead(off / 128 - 1) + [off % 128]
  }

  /** One more byte of the big-endian form, in 64-bit arithmetic: the increment is
      checked, the shift silently drops the high bits. */
  function OfsStep(off: nat, c: byte): Result<nat> {
    if off + 1 >= U64 then Corrupt else Ok((off + 1) * 128 % U64 + c % 128)
  }

  function ReadOfsFrom(d: seq<byte>, off: nat): (r: Result<(nat, nat)>)
    ensures r.Ok? ==> 0 < r.value.1 <= |d|
    decreases |d|
  {
    if d == [] then Corrupt
    else
      var v :- OfsStep(off, d[0]);
      if d[0] < 128 then Ok((v, 1))
      else
        var (w, used) :- ReadOfsFrom(d[1..], v);
        Ok((w, used + 1))
  }

  function ReadOfs(d: seq<byte>): (r: Result<(nat, nat)>)
    ensures r.Ok? ==> 0 < r.value.1 <= |d|
  {
    if d == [] then Corrupt
    else if d[0] < 128 then Ok((d[0], 1))
    else
      var (w, used) :- ReadOfsFrom(d[1..], d[0] - 128);
      Ok((w, used + 1))
  }

  /** A read that started `n` bytes earlier. */
  function Later(r: Result<(nat, nat)>, n: nat): Result<(nat, nat)> {
    match r
    case Ok((w, used)) => Ok((w, used + n))
    case Corrupt => Corrupt
  }

  /** The decoder's increment undoes the encoder's decrement. */
  lemma OfsStepUndoes(v: nat, c: byte)
    requires 128 <= v < U64 && c % 128 == v % 128
    ensures OfsStep(v / 128 - 1, c) == Ok(v)
  {
    assert (v / 128 - 1 + 1) * 128 + v % 128 == v;
    assert (v / 128) * 128 % U64 == (v / 128) * 128;
  }

  /** The reader after the continuation bytes of `v`, with `rest` still to come. */
  lemma {:induction false} OfsHeadRead(v: nat, rest: seq<byte>)
    requires v < U64
    ensures ReadOfs(OfsHead(v) + rest) == Later(ReadOfsFrom(rest, v), |OfsHead(v)|)
    decreases v
  {
    var all := OfsHead(v) + rest;
    if v < 128 {
      assert all[1..] == rest;
    } else {
      var u := v / 128 - 1;
      var c: byte := 128 + v % 128;
      var tail := [c] + rest;
      assert OfsHead(v) == OfsHead(u) + [c];
      assert all == OfsHead(u) + tail;
      OfsHeadRead(u, tail);
      OfsStepUndoes(v, c);
      assert tail[1..] == rest;
      assert ReadOfsFrom(tail, u) == Later(ReadOfsFrom(rest, v), 1);
    }
  }

  /** Every 64-bit offset reads back, and the reader stops right after it. */
  lemma OfsRoundTrip(off: nat, rest: seq<byte>)
    requires off < U64
    ensures ReadOfs(OfsBytes(off) + rest) == Ok((off, |OfsBytes(off)|))
  {
    if off >= 128 {
      var tail := [off % 128] + rest;
      assert OfsBytes(off) + rest == OfsHead(off / 128 - 1) + tail;
      OfsHeadRead(off / 128 - 1, tail);
      OfsStepUndoes(off, off % 128);
    }
  }

  predicate IsOfsEncoding(d: seq<byte>) {
    && d != []
    && d[|d| - 1] < 128
    && forall i :: 0 <= i < |d| - 1 ==> d[i] >= 128
  }

  /** The offset a well-formed encoding denotes, without a word size. */
  function OfsValue(d: seq<byte>): nat
    requires d != []
    decreases |d|
  {
    if |d| == 1 then d[0] % 128 else (OfsValue(d[..|d| - 1]) + 1) * 128 + d[|d| - 1] % 128
  }

  lemma {:induction false} OfsHeadUnique(d: seq<byte>)
    requires d != [] && forall i :: 0 <= i < |d| ==> d[i] >= 128
    ensures OfsHead(OfsValue(d)) == d
    decreases |d|
  {
    if |d| > 1 {
      OfsValueUnfolds(d);
      hide OfsHead, OfsValue;
      OfsHeadUnique(d[..|d| - 1]);
      assert d == d[..|d| - 1] + [d[|d| - 1]];
      OfsHeadGrows(OfsValue(d[..|d| - 1]), d[|d| - 1] % 128);
    }
  }

  lemma OfsValueUnfolds(d: seq<byte>)
    requires |d| > 1
    ensures OfsValue(d) == (OfsValue(d[..|d| - 1]) + 1) * 128 + d[|d| - 1] % 128
  {}

  lemma DigitsApart(high: nat, low: nat)
    requires low < 128
    ensures (high * 128 + low) / 128 == high && (high * 128 + low) % 128 == low
  {}

  lemma OfsHeadGrows(v: nat, low: nat)
    requires low < 128
    ensures OfsHead((v + 1) * 128 + low) == OfsHead(v) + [128 + low]
    ensures OfsBytes((v + 1) * 128 + low) == OfsHead(v) + [low]
  {
    DigitsApart(v + 1, low);
  }

  /** No two encodings denote the same offset: rewriting reproduces the bytes. */
  lemma OfsRewrite(d: seq<byte>)
    requires IsOfsEncoding(d)
    ensures OfsBytes(OfsValue(d)) == d
  {
    if |d| > 1 {
      OfsValueUnfolds(d);
      hide OfsHead, OfsValue, OfsBytes;
      OfsHeadUnique(d[..|d| - 1]);
      OfsHeadGrows(OfsValue(d[..|d| - 1]), d[|d| - 1]);
      assert d == d[..|d| - 1] + [d[|d| - 1]];
    }
  }

  /** So on encodings whose value fits a word, the 64-bit reader is exact. */
  lemma OfsReadsItsValue(d: seq<byte>, rest: seq<byte>)
    requires IsOfsEncoding(d) && OfsValue(d) < U64
    ensures ReadOfs(d + rest) == Ok((OfsValue(d), |d|))
  {
    OfsRewrite(d);
    OfsRoundTrip(OfsValue(d), rest);
  }

  /** How many continuation bytes an offset below 128^k can need. */
  lemma {:induction false} OfsHeadShort(v: nat, k: nat)
    requires v < OfsReach(k)
    ensures |OfsHead(v)| <= k
    decreases k
  {
    if v >= 128 { OfsHeadShort(v / 128 - 1, k - 1); }
  }

  function OfsReach(k: nat): nat {
    if k == 0 then 0 else 128 * (OfsReach(k - 1) + 1)
  }

  lemma OfsFitsScratch(off: nat)
    requires off < U64
    ensures |OfsBytes(off)| <= 10
  {
    assert OfsReach(9) > U64 / 128 by {
      assert OfsReach(3) == 2113664;
      assert OfsReach(6) == 4432676798592;
    }
    if off >= 128 { OfsHeadShort(off / 128 - 1, 9); }
  }

  /** The bytes still to be written in front once `off`'s low digit is down. */
  function OfsAbove(off: nat): seq<byte> {
    if off < 128 then [] else OfsHead(off / 128 - 1)
  }

  function Continuation(v: nat): byte {
    128 + v % 128
  }

  function Above(v: nat): nat
    requires v >= 128
  {
    v / 128 - 1
  }

  lemma OfsAboveStep(off: nat, all: seq<byte>, n: nat)
    requires off >= 128 && n <= |all| && OfsAbove(off) == all[..n]
    ensures n > 0 && OfsAbove(Above(off)) == all[..n - 1] && Continuation(Above(off)) == all[n - 1]
  {
    assert OfsAbove(off) == OfsAbove(Above(off)) + [Continuation(Above(off))];
  }

  lemma OfsLowByte(off: nat)
    ensures OfsBytes(off) == OfsAbove(off) + [off % 128]
  {}

  /** Fills the scratch buffer from the back; `pos` is where the encoding starts. */
  method FillScratch(tmp: array<byte>, offset: nat) returns (pos: nat)
    requires |OfsBytes(offset)| <= tmp.Length
    modifies tmp
    ensures pos <= tmp.Length && tmp[pos..] == OfsBytes(offset)
  {
    OfsLowByte(offset);
    ghost var all := OfsBytes(offset);
    var off := offset;
    pos := tmp.Length - 1;
    tmp[pos] := off % 128;
    ghost var n := |all| - 1;  // bytes still to be written in front
    while off >= 128
      invariant 0 <= n < |all| <= tmp.Length && pos == tmp.Length - (|all| - n)
      invariant OfsAbove(off) == all[..n]
      invariant forall i :: pos <= i < tmp.Length ==> tmp[i] == all[i - (tmp.Length - |all|)]
      decreases off
    {
      OfsAboveStep(off, all, n);
      off := Above(off);
      n := n - 1;
      pos := pos - 1;
      tmp[pos] := Continuation(off);
    }
  }

  /** The 16-byte scratch buffer is wide enough for every 64-bit offset. */
  method WriteOfsVarint(out: seq<byte>, offset: nat) returns (r: seq<byte>)
    requires offset < U64
    ensures r == out + OfsBytes(offset)
  {
    OfsFitsScratch(offset);
    var tmp := new byte[16];
    var pos := FillScratch(tmp, offset);
    r := out + tmp[pos..];
  }

  method ReadOfsVarint(data: seq<byte>, start: nat) returns (r: Result<(nat, nat)>)
    requires start <= |data|
    ensures r == Later(ReadOfs(data[start..]), start)
  {
    if start >= |data| { return Corrupt; }
    var c := data[start];
    var pos := start + 1;
    var off: nat := c % 128;
    assert data[start..][1..] == data[pos..];
    ghost var want := Later(ReadOfs(data[start..]), start);
    hide ReadOfs, ReadOfsFrom, OfsStep;
    while c >= 128
      invariant start < pos <= |data|
      invariant want == if c < 128 then Ok((off, pos)) else Later(ReadOfsFrom(data[pos..], off), pos)
      decreases |data| - pos, c
    {
      ReadOfsUnfolds(data, pos, off);
      if pos >= |data| { return Corrupt; }
      c := data[pos];
      pos := pos + 1;
      var next := OfsStep(off, c);
      if next.Corrupt? { return Corrupt; }
      off := next.value;
    }
    r := Ok((off, pos));
  }

  lemma ReadOfsUnfolds(data: seq<byte>, pos: nat, off: nat)
    requires pos <= |data|
    ensures Later(ReadOfsFrom(data[pos..], off), pos) ==
      if pos == |data| || OfsStep(off, data[pos]).Corrupt? then Corrupt
      else if data[pos] < 128 then Ok((OfsStep(off, data[pos]).value, pos + 1))
      else Later(ReadOfsFrom(data[pos + 1..], OfsStep(off, data[pos]).value), pos + 1)
  {
    hide OfsStep;
    if pos < |data| { assert data[pos..][1..] == data[pos + 1..]; }
  }
}
