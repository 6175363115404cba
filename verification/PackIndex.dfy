/**
 The version 2 index of a pack: rows sorted by object id behind a 256-entry fanout.
 */
module PackIndex {
  import opened Bytes
  import Delta
  import opened PackFormat
  import PackStream
  import opened PackWriter
  import opened PackRoundTrip

  datatype Row = Row(sha: Sha1, offset: nat, crc: nat)

  predicate Ids(rows: seq<Row>) {
    forall k :: 0 <= k < |rows| ==> |rows[k].sha| == 20
  }

  predicate Less(a: Sha1, b: Sha1)
    decreases |a|
  {
    if b == [] then false
    else if a == [] then true
    else if a[0] != b[0] then a[0] < b[0]
    else Less(a[1..], b[1..])
  }

  /** The first byte in which two ids differ decides, and a prefix comes before what it begins. */
  predicate DifferAt(a: Sha1, b: Sha1, k: nat) {
    k <= |a| && k < |b| && a[..k] == b[..k] && (k == |a| || a[k] < b[k])
  }

  lemma {:induction false} LessIff(a: Sha1, b: Sha1)
    ensures Less(a, b) <==> exists k: nat :: DifferAt(a, b, k)
    decreases |a|
  {
    if a != [] && b != [] && a[0] == b[0] {
      LessIff(a[1..], b[1..]);
      if k: nat :| DifferAt(a[1..], b[1..], k) {
        assert a[..k + 1] == [a[0]] + a[1..][..k] && b[..k + 1] == [b[0]] + b[1..][..k];
        assert DifferAt(a, b, k + 1);
      }
      if k: nat :| DifferAt(a, b, k) {
        assert k > 0 && a[1..][..k - 1] == a[..k][1..] && b[1..][..k - 1] == b[..k][1..];
        assert DifferAt(a[1..], b[1..], k - 1);
      }
    } else if b != [] && (a == [] || a[0] < b[0]) {
      assert a[..0] == b[..0];
      assert DifferAt(a, b, 0);
    }
  }

  lemma {:induction false} NotLessChains(x: Sha1, y: Sha1, w: Sha1)
    requires !Less(x, y) && !Less(y, w)
    ensures !Less(x, w)
    decreases |x|
  {
    if x != [] && y != [] && w != [] && x[0] == y[0] == w[0] { NotLessChains(x[1..], y[1..], w[1..]); }
  }

  lemma {:induction false} LessIsOneWay(a: Sha1, b: Sha1)
    requires Less(a, b)
    ensures !Less(b, a)
    decreases |a|
  {
    if a != [] && a[0] == b[0] { LessIsOneWay(a[1..], b[1..]); }
  }

  ghost predicate Sorted(rows: seq<Row>) {
    forall j, k :: 0 <= j < k < |rows| ==> !Less(rows[k].sha, rows[j].sha)
  }

  lemma InsertKeepsSorted(rows: seq<Row>, row: Row, p: nat)
    requires Sorted(rows) && p <= |rows|
    requires forall j :: 0 <= j < p ==> !Less(row.sha, rows[j].sha)
    requires forall j :: p <= j < |rows| ==> Less(row.sha, rows[j].sha)
    ensures Sorted(rows[..p] + [row] + rows[p..])
    ensures multiset(rows[..p] + [row] + rows[p..]) == multiset(rows) + multiset{row}
  {
    hide Less;
    forall j | p <= j < |rows| ensures !Less(rows[j].sha, row.sha) { LessIsOneWay(row.sha, rows[j].sha); }
    InsertedRows(rows, row, p);
  }

  lemma InsertedRows(rows: seq<Row>, row: Row, p: nat)
    requires p <= |rows|
    ensures multiset(rows[..p] + [row] + rows[p..]) == multiset(rows) + multiset{row}
  {
    assert rows == rows[..p] + rows[p..];
  }

  /** Where a row goes: behind everything that is not greater. */
  method FindSlot(rows: seq<Row>, row: Row) returns (p: nat)
    requires Sorted(rows)
    ensures p <= |rows|
    ensures forall j :: 0 <= j < p ==> !Less(row.sha, rows[j].sha)
    ensures forall j :: p <= j < |rows| ==> Less(row.sha, rows[j].sha)
  {
    p := |rows|;
    while p > 0 && Less(row.sha, rows[p - 1].sha)
      invariant p <= |rows|
      invariant forall j :: p <= j < |rows| ==> Less(row.sha, rows[j].sha)
    {
      p := p - 1;
    }
    if p > 0 {
      forall j | 0 <= j < p ensures !Less(row.sha, rows[j].sha) {
        if j < p - 1 { NotLessChains(row.sha, rows[p - 1].sha, rows[j].sha); }
      }
    }
  }

  method SortRows(rows: seq<Row>) returns (sorted: seq<Row>)
    ensures Sorted(sorted) && multiset(sorted) == multiset(rows)
  {
    sorted := [];
    for i := 0 to |rows|
      invariant Sorted(sorted) && multiset(sorted) == multiset(rows[..i])
    {
      var p := FindSlot(sorted, rows[i]);
      InsertKeepsSorted(sorted, rows[i], p);
      sorted := sorted[..p] + [rows[i]] + sorted[p..];
      assert rows[..i + 1] == rows[..i] + [rows[i]];
    }
    assert rows[..|rows|] == rows;
  }

  // ----- the fanout ------------------------------------------------------------------------

  function CountIs(rows: seq<Row>, b: int): nat
    requires Ids(rows)
  {
    if rows == [] then 0
    else CountIs(rows[..|rows| - 1], b) + if rows[|rows| - 1].sha[0] == b then 1 else 0
  }

  function CountUpTo(rows: seq<Row>, b: int): (n: nat)
    requires Ids(rows)
    ensures n <= |rows|
  {
    if rows == [] then 0
    else CountUpTo(rows[..|rows| - 1], b) + if rows[|rows| - 1].sha[0] <= b then 1 else 0
  }

  lemma {:induction false} CountsAddUp(rows: seq<Row>, b: int)
    requires Ids(rows)
    ensures CountUpTo(rows, b) == CountUpTo(rows, b - 1) + CountIs(rows, b)
    decreases |rows|
  {
    if rows != [] { CountsAddUp(rows[..|rows| - 1], b); }
  }

  lemma {:induction false} CountsBelowZero(rows: seq<Row>)
    requires Ids(rows)
    ensures CountUpTo(rows, -1) == 0 && CountUpTo(rows, 255) == |rows|
    decreases |rows|
  {
    if rows != [] { CountsBelowZero(rows[..|rows| - 1]); }
  }

  /** In sorted rows, the first `CountUpTo(rows, b)` are those with first byte up to `b`. */
  lemma {:induction false} CountIsBoundary(rows: seq<Row>, b: int, k: nat)
    requires Ids(rows) && Sorted(rows) && k < |rows|
    ensures k < CountUpTo(rows, b) <==> rows[k].sha[0] <= b
    decreases |rows|
  {
    var n := |rows| - 1;
    var init := rows[..n];
    assert forall j :: 0 <= j < n ==> rows[j].sha[0] <= rows[n].sha[0] by {
      forall j | 0 <= j < n ensures rows[j].sha[0] <= rows[n].sha[0] { assert !Less(rows[n].sha, rows[j].sha); }
    }
    if n > 0 {
      CountIsBoundary(init, b, if k < n then k else n - 1);
      if k == n && rows[n].sha[0] <= b { AllCounted(init, b); }
    }
  }

  lemma {:induction false} AllCounted(rows: seq<Row>, b: int)
    requires Ids(rows) && forall j :: 0 <= j < |rows| ==> rows[j].sha[0] <= b
    ensures CountUpTo(rows, b) == |rows|
    decreases |rows|
  {
    if rows != [] { AllCounted(rows[..|rows| - 1], b); }
  }

  method BuildFanout(rows: seq<Row>) returns (fanout: array<nat>)
    requires Ids(rows)
    ensures fanout.Length == 256 && forall b :: 0 <= b < 256 ==> fanout[b] == CountUpTo(rows, b)
  {
    fanout := new nat[256](_ => 0);
    for i := 0 to |rows|
      invariant forall b :: 0 <= b < 256 ==> fanout[b] == CountIs(rows[..i], b)
    {
      assert rows[..i + 1][..i] == rows[..i];
      var first := rows[i].sha[0];
      fanout[first] := fanout[first] + 1;
    }
    assert rows[..|rows|] == rows;
    var cum := 0;
    CountsBelowZero(rows);
    for b := 0 to 256
      invariant cum == CountUpTo(rows, b - 1)
      invariant forall c :: 0 <= c < b ==> fanout[c] == CountUpTo(rows, c)
      invariant forall c :: b <= c < 256 ==> fanout[c] == CountIs(rows, c)
    {
      CountsAddUp(rows, b);
      cum := cum + fanout[b];
      fanout[b] := cum;
    }
  }

  // ----- the index of a pack ------------------------------------------------------------------

  /** The rows whose first byte is `b` are exactly those the fanout brackets. */
  ghost predicate Brackets(fanout: seq<nat>, rows: seq<Row>)
    requires |fanout| == 256 && Ids(rows)
  {
    && fanout[255] == |rows|
    && forall b, k :: 0 <= b < 256 && 0 <= k < |rows| ==>
         (rows[k].sha[0] == b <==> (if b == 0 then 0 else fanout[b - 1]) <= k < fanout[b])
  }

  /** At each row's offset lies the entry of an object with that row's id, and the row's checksum
      is that of the entry's bytes. */
  ghost predicate Locates(z: Zlib, objects: seq<PackObject>, chosen: seq<Choice>, offsets: seq<nat>, pack: seq<byte>,
                          crc: seq<byte> -> nat, rows: seq<Row>)
    requires |chosen| == |offsets| == |objects|
  {
    forall k :: 0 <= k < |rows| ==> Located(z, objects, chosen, offsets, pack, crc, rows[k])
  }

  ghost predicate Located(z: Zlib, objects: seq<PackObject>, chosen: seq<Choice>, offsets: seq<nat>, pack: seq<byte>,
                          crc: seq<byte> -> nat, row: Row)
    requires |chosen| == |offsets| == |objects|
  {
    exists i: nat :: i < |objects| && RowOf(z, objects, chosen, offsets, pack, crc, row, i)
  }

  ghost predicate RowOf(z: Zlib, objects: seq<PackObject>, chosen: seq<Choice>, offsets: seq<nat>, pack: seq<byte>,
                        crc: seq<byte> -> nat, row: Row, i: nat)
    requires i < |objects| == |chosen| == |offsets|
  {
    var e := EntryOf(objects, chosen, offsets, i);
    && objects[i].sha1 == row.sha && offsets[i] == row.offset < LARGE_OFFSET
    && WellFormed(e) && EntryAt(z, pack, row.offset, e) && row.crc == crc(EntryBytes(z, e))
  }

  ghost predicate HasRow(rows: seq<Row>, sha: Sha1, offset: nat) {
    exists k :: 0 <= k < |rows| && rows[k].sha == sha && rows[k].offset == offset
  }

  /** The rows of the objects, in the order they were written. */
  method ListRows(z: Zlib, objects: seq<PackObject>, pack: seq<byte>, offsets: seq<nat>, crc: seq<byte> -> nat,
                  order: seq<nat>, ghost chosen: seq<Choice>, ghost depth: seq<nat>, starts: seq<nat>)
      returns (rows: seq<Row>)
    requires Written(z, objects, pack, offsets, order, chosen, depth, starts)
    ensures |rows| == |objects|
    ensures forall k :: 0 <= k < |rows| ==> RowOf(z, objects, chosen, offsets, pack, crc, rows[k], order[k])
  {
    hide EntryBytes, Delta.ApplyDelta, Chosen, PackHeader;
    rows := [];
    for k := 0 to |order|
      invariant |rows| == k
      invariant forall j :: 0 <= j < k ==> RowOf(z, objects, chosen, offsets, pack, crc, rows[j], order[j])
    {
      var i := order[k];
      assert LaidAt(z, objects, order, chosen, offsets, starts, pack, k);
      rows := rows + [Row(objects[i].sha1, offsets[i], crc(pack[starts[k]..starts[k + 1]]))];
    }
  }

  /** The index the writer emits beside the packfile: a row for every object, however large. */
  method BuildIdx(z: Zlib, objects: seq<PackObject>, pack: seq<byte>, offsets: seq<nat>, crc: seq<byte> -> nat,
                  order: seq<nat>, ghost chosen: seq<Choice>, ghost depth: seq<nat>, starts: seq<nat>)
      returns (rows: seq<Row>, fanout: seq<nat>)
    requires Written(z, objects, pack, offsets, order, chosen, depth, starts)
    requires forall i :: 0 <= i < |objects| ==> |objects[i].sha1| == 20
    ensures |rows| == |objects| && Ids(rows) && Sorted(rows)
    ensures |fanout| == 256 && Brackets(fanout, rows)
    ensures Locates(z, objects, chosen, offsets, pack, crc, rows)
    ensures forall i :: 0 <= i < |objects| ==> HasRow(rows, objects[i].sha1, offsets[i])
  {
    hide Less, EntryBytes, Laid, Selected, Saves, PackHeader, Sorted, Brackets;
    var unsorted := ListRows(z, objects, pack, offsets, crc, order, chosen, depth, starts);
    WrittenLists(z, objects, pack, offsets, order, chosen, depth, starts);
    rows := SortRows(unsorted);
    SameRows(rows, unsorted);
    assert Ids(rows);
    var table := BuildFanout(rows);
    fanout := table[..];
    FanoutBrackets(fanout, rows);
    EveryRowKept(z, objects, offsets, pack, crc, order, chosen, unsorted, rows);
  }

  lemma WrittenLists(z: Zlib, objects: seq<PackObject>, pack: seq<byte>, offsets: seq<nat>,
                     order: seq<nat>, chosen: seq<Choice>, depth: seq<nat>, starts: seq<nat>)
    requires Written(z, objects, pack, offsets, order, chosen, depth, starts)
    ensures Lists(order, |objects|) && |chosen| == |offsets| == |objects|
  {}

  lemma EveryRowKept(z: Zlib, objects: seq<PackObject>, offsets: seq<nat>, pack: seq<byte>, crc: seq<byte> -> nat,
                     order: seq<nat>, chosen: seq<Choice>, unsorted: seq<Row>, rows: seq<Row>)
    requires Lists(order, |objects|) && |chosen| == |offsets| == |objects| == |unsorted|
    requires forall k :: 0 <= k < |unsorted| ==> RowOf(z, objects, chosen, offsets, pack, crc, unsorted[k], order[k])
    requires forall k :: 0 <= k < |rows| ==> rows[k] in unsorted
    requires forall k :: 0 <= k < |unsorted| ==> unsorted[k] in rows
    ensures Locates(z, objects, chosen, offsets, pack, crc, rows)
    ensures forall i :: 0 <= i < |objects| ==> HasRow(rows, objects[i].sha1, offsets[i])
  {
    hide RowOf;
    forall k | 0 <= k < |rows| ensures Located(z, objects, chosen, offsets, pack, crc, rows[k]) {
      var j :| 0 <= j < |unsorted| && unsorted[j] == rows[k];
      assert RowOf(z, objects, chosen, offsets, pack, crc, rows[k], order[j]);
    }
    forall i | 0 <= i < |objects| ensures HasRow(rows, objects[i].sha1, offsets[i]) {
      assert i in order;
      var j :| 0 <= j < |order| && order[j] == i;
      RowNames(z, objects, chosen, offsets, pack, crc, unsorted[j], i);
      assert unsorted[j] in rows;
    }
  }

  lemma RowNames(z: Zlib, objects: seq<PackObject>, chosen: seq<Choice>, offsets: seq<nat>, pack: seq<byte>,
                 crc: seq<byte> -> nat, row: Row, i: nat)
    requires i < |objects| == |chosen| == |offsets| && RowOf(z, objects, chosen, offsets, pack, crc, row, i)
    ensures row.sha == objects[i].sha1 && row.offset == offsets[i]
  {}

  /** Seeking to a row's offset reads an object of that id, if objects are within the reader's limit. */
  lemma RowsRead(z: Zlib, bySha: map<Sha1, nat>, objects: seq<PackObject>, pack: seq<byte>, offsets: seq<nat>, crc: seq<byte> -> nat,
                 order: seq<nat>, chosen: seq<Choice>, depth: seq<nat>, starts: seq<nat>, rows: seq<Row>, k: nat)
    requires Sound(z) && Packable(objects) && Inflatable(objects) && k < |rows|
    requires Written(z, objects, pack, offsets, order, chosen, depth, starts)
    requires Locates(z, objects, chosen, offsets, pack, crc, rows)
    ensures exists i ::
      0 <= i < |objects| && objects[i].sha1 == rows[k].sha && ReadAt(z, bySha, pack, rows[k].offset, 0) == Ok(objects[i].content)
  {
    hide EntryBytes, LaidAt, Chosen, ReadAt, PackStream.DecodePack, PackHeader, EntryAt;
    PackRecovers(z, objects, order, chosen, depth, offsets, starts, pack);
    assert Located(z, objects, chosen, offsets, pack, crc, rows[k]);
    var i: nat :| i < |objects| && RowOf(z, objects, chosen, offsets, pack, crc, rows[k], i);
    assert ReadAt(z, bySha, pack, offsets[i], 0) == Ok(objects[i].content);
  }

  lemma FanoutBrackets(fanout: seq<nat>, rows: seq<Row>)
    requires Ids(rows) && Sorted(rows) && |fanout| == 256
    requires forall b :: 0 <= b < 256 ==> fanout[b] == CountUpTo(rows, b)
    ensures Brackets(fanout, rows)
  {
    hide CountUpTo;
    CountsBelowZero(rows);
    forall b, k | 0 <= b < 256 && 0 <= k < |rows|
      ensures rows[k].sha[0] == b <==> (if b == 0 then 0 else fanout[b - 1]) <= k < fanout[b]
    {
      CountIsBoundary(rows, b, k);
      CountIsBoundary(rows, b - 1, k);
    }
  }

  lemma SameRows(rows: seq<Row>, unsorted: seq<Row>)
    requires multiset(rows) == multiset(unsorted)
    ensures |rows| == |unsorted|
    ensures forall k :: 0 <= k < |rows| ==> rows[k] in unsorted
    ensures forall k :: 0 <= k < |unsorted| ==> unsorted[k] in rows
  {
    assert |rows| == |multiset(rows)| == |multiset(unsorted)| == |unsorted|;
    forall k | 0 <= k < |rows| ensures rows[k] in unsorted { assert rows[k] in multiset(unsorted); }
    forall k | 0 <= k < |unsorted| ensures unsorted[k] in rows { assert unsorted[k] in multiset(rows); }
  }
}
