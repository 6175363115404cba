/**
 What the varint readers make of any bytes at all, not only of what the writers write: where
 they stop, when they fail, and that the value is the one the bytes spell, modulo the word.
 */
module VarintsOnBytes {
  import opened Bytes
  import opened Varints
  import opened PackFormat

  // ----- sizes ------------------------------------------------------------------------------------------

  /** The number some digits spell, least significant first, without a word size. */
  function Word(d: seq<byte>): nat {
    if d == [] then 0 else d[0] % 128 + 128 * Word(d[1..])
  }

  /** The first byte without a continuation bit is the `n`th. */
  predicate StopsAt(d: seq<byte>, n: nat) {
    0 < n <= |d| && d[n - 1] < 128 && forall i :: 0 <= i < n - 1 ==> d[i] >= 128
  }

  /** There is no such byte among the first `n`. */
  predicate Unstopped(d: seq<byte>, n: nat) { forall i :: 0 <= i < n && i < |d| ==> d[i] >= 128 }

  lemma ScaledRemainder(low: nat, w: nat, m: nat)
    requires low < 128 && m > 0
    ensures (low + 128 * w) % (128 * m) == low + 128 * (w % m)
  {
    var q, r := w / m, w % m;
    assert w == q * m + r;
    assert low + 128 * w == q * (128 * m) + (low + 128 * r) by { assert 128 * (q * m) == q * (128 * m); }
    Remainder(q, 128 * m, low + 128 * r);
  }

  lemma Remainder(q: nat, m: nat, r: nat)
    requires r < m
    ensures (q * m + r) % m == r
  {
    Division(q * m + r, m);
    OneQuotient(q, (q * m + r) / m, m, r, (q * m + r) % m);
  }

  lemma Division(x: nat, m: nat)
    requires m > 0
    ensures x == x / m * m + x % m && 0 <= x % m < m
  {}

  lemma OneQuotient(q: int, q': int, m: nat, r: nat, r': nat)
    requires r < m && r' < m && q * m + r == q' * m + r'
    ensures r == r'
  {
    assert (q - q') * m == r' - r && (q' - q) * m == r - r';
    if q > q' { Multiple(q - q', m); }
    if q < q' { Multiple(q' - q, m); }
  }

  lemma Multiple(k: nat, m: nat)
    requires k > 0
    ensures k * m >= m
  {}

  lemma SmallRemainder(r: nat, m: nat)
    requires r < m
    ensures r % m == r
  {}

  ghost predicate IsRead(d: seq<byte>, v: nat, n: nat, word: nat) {
    StopsAt(d, n) && word > 0 && v == Word(d[..n]) % word
  }

  lemma {:induction false} DigitsAre(d: seq<byte>, left: nat, keep: nat)
    requires 0 < keep <= 128
    ensures ReadDigits(d, left, keep).Corrupt? <==> Unstopped(d, left + 1)
    ensures ReadDigits(d, left, keep).Ok? ==>
      var (v, n) := ReadDigits(d, left, keep).value; n <= left + 1 && IsRead(d, v, n, Room(left, keep))
    decreases left
  {
    if d != [] {
      if d[0] < 128 {
        OneDigit(d, left, keep);
      } else if left > 0 {
        DigitsAre(d[1..], left - 1, keep);
        UnstoppedUnfolds(d, left);
        if ReadDigits(d[1..], left - 1, keep).Ok? {
          var (v, n) := ReadDigits(d[1..], left - 1, keep).value;
          OneMoreDigit(d, left, keep, v, n);
        }
      }
    }
  }

  lemma UnstoppedUnfolds(d: seq<byte>, n: nat)
    requires d != [] && d[0] >= 128
    ensures Unstopped(d, n + 1) <==> Unstopped(d[1..], n)
  {
    if Unstopped(d[1..], n) {
      forall i | 0 <= i < n + 1 && i < |d| ensures d[i] >= 128 { if i > 0 { assert d[i] == d[1..][i - 1]; } }
    }
  }

  lemma OneDigit(d: seq<byte>, left: nat, keep: nat)
    requires 0 < keep <= 128 && d != [] && d[0] < 128
    ensures IsRead(d, if left == 0 then d[0] % keep else d[0], 1, Room(left, keep))
  {
    assert d[..1] == [d[0]] && Word([d[0]]) == d[0];
    RoomAtLeast(left, keep);
    assert left == 0 ==> Room(left, keep) == keep;
    hide Word, Room;
    if left > 0 { SmallRemainder(d[0], Room(left, keep)); }
  }

  lemma {:induction false} RoomAtLeast(left: nat, keep: nat)
    requires keep > 0
    ensures Room(left, keep) > 0 && (left > 0 ==> Room(left, keep) >= 128)
    decreases left
  {
    if left > 0 { RoomAtLeast(left - 1, keep); }
  }

  lemma OneMoreDigit(d: seq<byte>, left: nat, keep: nat, v: nat, n: nat)
    requires left > 0 && keep > 0 && d != [] && d[0] >= 128 && IsRead(d[1..], v, n, Room(left - 1, keep))
    ensures IsRead(d, d[0] - 128 + 128 * v, n + 1, Room(left, keep))
  {
    assert d[..n + 1][1..] == d[1..][..n];
    ScaledRemainder(d[0] - 128, Word(d[1..][..n]), Room(left - 1, keep));
    forall i | 0 <= i < n ensures d[i] >= 128 { if i > 0 { assert d[i] == d[1..][i - 1]; } }
  }

  /** A size reads exactly if one of its first ten bytes ends it, and is then the number those bytes
      spell, modulo 2^64. */
  lemma SizeIs(d: seq<byte>)
    ensures ReadSize(d).Corrupt? <==> Unstopped(d, 10)
    ensures ReadSize(d).Ok? ==> var (v, n) := ReadSize(d).value; IsRead(d, v, n, 0x1_0000_0000_0000_0000)
  {
    hide Room, ReadDigits, IsRead;
    RoomIsU64();
    DigitsAre(d, 9, 2);
  }

  /** So does the size of an object header, behind its type and its low four bits. */
  lemma HeaderIs(d: seq<byte>)
    requires d != []
    ensures d[0] < 128 ==> ReadHeader(d) == Ok((d[0] / 16, d[0] % 16, 1))
    ensures d[0] >= 128 ==> (ReadHeader(d).Corrupt? <==> Unstopped(d[1..], 9))
    ensures d[0] >= 128 && ReadHeader(d).Ok? ==>
      var (t, size, n) := ReadHeader(d).value;
      && t == d[0] / 16 - 8 && StopsAt(d[1..], n - 1)
      && size == (d[0] % 16 + 16 * Word(d[1..][..n - 1])) % 0x1_0000_0000_0000_0000
  {
    hide Room, ReadDigits, Word;
    RoomIsU64();
    DigitsAre(d[1..], 8, 16);
    if d[0] >= 128 && ReadHeader(d).Ok? {
      var w := Word(d[1..][..ReadHeader(d).value.2 - 1]);
      SixteenRemainder(d[0] % 16, w);
    }
  }

  lemma SixteenRemainder(low: nat, w: nat)
    requires low < 16
    ensures (low + 16 * w) % 0x1_0000_0000_0000_0000 == low + 16 * (w % 0x1000_0000_0000_0000)
  {}

  // ----- base offsets -----------------------------------------------------------------------------------

  /** On the way to the `n`th byte the word is full when the next one is to be added. */
  ghost predicate Full(d: seq<byte>, k: nat, n: nat)
    requires n <= |d|
  {
    exists j :: 0 < k <= j < n && OfsValue(d[..j]) % U64 == U64 - 1
  }

  lemma OfsStepIs(d: seq<byte>, k: nat)
    requires 0 < k < |d|
    ensures OfsStep(OfsValue(d[..k]) % U64, d[k]) ==
      if OfsValue(d[..k]) % U64 == U64 - 1 then Corrupt else Ok(OfsValue(d[..k + 1]) % U64)
  {
    var x := OfsValue(d[..k]);
    assert d[..k + 1][..k] == d[..k];
    OfsValueUnfolds(d[..k + 1]);
    hide OfsValue;
    WrapsAlike(x, d[k] % 128);
  }

  lemma WrapsAlike(x: nat, low: nat)
    requires low < 128
    ensures (x % U64 + 1) * 128 % U64 + low == ((x + 1) * 128 + low) % U64
  {}

  lemma {:induction false} OfsFromIs(d: seq<byte>, k: nat, n: nat)
    requires StopsAt(d, n) && 0 < k < n
    ensures ReadOfsFrom(d[k..], OfsValue(d[..k]) % U64) ==
      if Full(d, k, n) then Corrupt else Ok((OfsValue(d[..n]) % U64, n - k))
    decreases n - k
  {
    OfsStepIs(d, k);
    assert d[k..][0] == d[k] && d[k..][1..] == d[k + 1..];
    hide OfsStep, OfsValue;
    if OfsValue(d[..k]) % U64 == U64 - 1 {
      assert Full(d, k, n);
    } else if k + 1 < n {
      OfsFromIs(d, k + 1, n);
      assert Full(d, k, n) <==> Full(d, k + 1, n);
    }
  }

  lemma {:induction false} OfsFromNeverEnds(d: seq<byte>, v: nat)
    requires Unstopped(d, |d|)
    ensures ReadOfsFrom(d, v).Corrupt?
    decreases |d|
  {
    if d != [] && OfsStep(v, d[0]).Ok? { OfsFromNeverEnds(d[1..], OfsStep(v, d[0]).value); }
  }

  /** An offset that ends reads as the number its bytes spell, modulo 2^64, unless the word is all ones
      when a further byte is added; one that does not end never reads. */
  lemma OfsIs(d: seq<byte>, n: nat)
    ensures StopsAt(d, n) ==> ReadOfs(d) == if Full(d, 1, n) then Corrupt else Ok((OfsValue(d[..n]) % U64, n))
    ensures Unstopped(d, |d|) ==> ReadOfs(d).Corrupt?
  {
    hide ReadOfsFrom;
    if d != [] {
      assert d[..1] == [d[0]] && OfsValue(d[..1]) == d[0] % 128;
      if StopsAt(d, n) && n > 1 { OfsFromIs(d, 1, n); }
      if Unstopped(d, |d|) { OfsFromNeverEnds(d[1..], d[0] - 128); }
    }
  }
}
