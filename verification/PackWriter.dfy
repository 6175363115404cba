/**
 The packfile writer: orders objects, picks delta bases from a sliding window under a
 depth cap, and lays the entries out. Both readers recover every object from what
 it writes.
 */
module PackWriter {
  import opened Bytes
  import opened Varints
  import opened Delta
  import opened DeltaEncoder
  import opened PackFormat
  import opened PackStream

  datatype PackObject = PackObject(gitType: nat, content: seq<byte>, sha1: Sha1, nameHash: nat)

  datatype Choice = Whole | Against(base: nat, delta: seq<byte>)

  /** Types are the four git kinds, and contents fit in memory. */
  predicate Packable(objects: seq<PackObject>) {
    forall i :: 0 <= i < |objects| ==> 1 <= objects[i].gitType <= 4 && |objects[i].content| < U64
  }

  // ----- write order ----------------------------------------------------------------------

  /** Type, then name hash, then larger content first. */
  predicate Before(a: PackObject, b: PackObject) {
    if a.gitType != b.gitType then a.gitType < b.gitType
    else if a.nameHash != b.nameHash then a.nameHash < b.nameHash
    else |a.content| > |b.content|
  }

  /** `order` lists `0..n` once each. */
  ghost predicate Lists(order: seq<nat>, n: nat) {
    && |order| == n
    && (forall k :: 0 <= k < n ==> order[k] < n)
    && (forall j, k :: 0 <= j < k < n ==> order[j] != order[k])
    && (forall i :: 0 <= i < n ==> i in order)
  }

  lemma InsertKeepsList(order: seq<nat>, i: nat, p: nat)
    requires Lists(order, i) && p <= i
    ensures Lists(order[..p] + [i] + order[p..], i + 1)
  {
    var more := order[..p] + [i] + order[p..];
    forall x | 0 <= x < i + 1 ensures x in more {
      if x == i {
        assert more[p] == i;
      } else {
        assert x in order;
        var j :| 0 <= j < i && order[j] == x;
        assert more[if j < p then j else j + 1] == x;
      }
    }
  }

  /** By ascending type, then ascending name hash, then descending size, then as listed. */
  predicate Earlier(objects: seq<PackObject>, i: nat, j: nat)
    requires i < |objects| && j < |objects|
  {
    var a, b := objects[i], objects[j];
    || a.gitType < b.gitType
    || (a.gitType == b.gitType && a.nameHash < b.nameHash)
    || (a.gitType == b.gitType && a.nameHash == b.nameHash && |a.content| > |b.content|)
    || (a.gitType == b.gitType && a.nameHash == b.nameHash && |a.content| == |b.content| && i < j)
  }

  ghost predicate Stably(objects: seq<PackObject>, order: seq<nat>) {
    && (forall k :: 0 <= k < |order| ==> order[k] < |objects|)
    && forall j, k :: 0 <= j < k < |order| ==> Earlier(objects, order[j], order[k])
  }

  lemma InsertKeepsStable(objects: seq<PackObject>, order: seq<nat>, i: nat, p: nat)
    requires Lists(order, i) && Stably(objects, order) && i < |objects| && p <= |order|
    requires forall j :: 0 <= j < p ==> !Before(objects[i], objects[order[j]])
    requires forall j :: p <= j < |order| ==> Before(objects[i], objects[order[j]])
    ensures Stably(objects, order[..p] + [i] + order[p..])
  {
    var more := order[..p] + [i] + order[p..];
    forall j, k | 0 <= j < k < |more| ensures Earlier(objects, more[j], more[k]) {
      if j == p {
        assert more[k] == order[k - 1] && Before(objects[i], objects[order[k - 1]]);
      } else if k == p {
        assert more[j] == order[j] && order[j] < i && !Before(objects[i], objects[order[j]]);
      } else {
        hide Earlier, Before;
        assert more[j] == order[if j < p then j else j - 1] && more[k] == order[if k < p then k else k - 1];
      }
    }
  }

  /** The stable sort of the write order. */
  method SortOrder(objects: seq<PackObject>) returns (order: seq<nat>)
    ensures Lists(order, |objects|) && Stably(objects, order)
  {
    order := [];
    for i := 0 to |objects|
      invariant Lists(order, i) && Stably(objects, order)
    {
      var p := i;
      while p > 0 && Before(objects[i], objects[order[p - 1]])
        invariant 0 <= p <= i
        invariant forall j :: p <= j < i ==> Before(objects[i], objects[order[j]])
      {
        p := p - 1;
      }
      assert forall j :: 0 <= j < p ==> !Before(objects[i], objects[order[j]]) by {
        if p > 0 {
          forall j | 0 <= j < p ensures !Before(objects[i], objects[order[j]]) {
            if j < p - 1 { NotBeforeEarlier(objects[i], objects[order[p - 1]], objects[order[j]]); }
          }
        }
      }
      InsertKeepsList(order, i, p);
      InsertKeepsStable(objects, order, i, p);
      hide Lists, Stably;
      order := order[..p] + [i] + order[p..];
    }
  }

  lemma NotBeforeEarlier(x: PackObject, later: PackObject, earlier: PackObject)
    requires !Before(x, later) && !Before(later, earlier)
    ensures !Before(x, earlier)
  {}

  // ----- base selection ---------------------------------------------------------------------

  /** What the writer decided for the object at position `k` of the order. */
  ghost predicate Chosen(objects: seq<PackObject>, order: seq<nat>, chosen: seq<Choice>, depth: seq<nat>, k: nat)
    requires Lists(order, |objects|) && |chosen| == |depth| == |objects| && k < |order|
  {
    var i := order[k];
    match chosen[i]
    case Whole => depth[i] == 0
    case Against(b, delta) =>
      && b in order[..k]
      && objects[b].gitType == objects[i].gitType
      && |delta| < |objects[i].content|
      && ApplyDelta(objects[b].content, delta) == Ok(objects[i].content)
      && depth[i] == depth[b] + 1
  }

  ghost predicate Selected(objects: seq<PackObject>, order: seq<nat>, chosen: seq<Choice>, depth: seq<nat>, upTo: nat) {
    && Lists(order, |objects|) && |chosen| == |depth| == |objects| && upTo <= |order|
    && forall k :: 0 <= k < upTo ==> Chosen(objects, order, chosen, depth, k)
  }

  /** A delta is written only where it compresses better than the object itself. */
  ghost predicate Saves(z: Zlib, objects: seq<PackObject>, chosen: seq<Choice>) {
    forall i :: 0 <= i < |objects| && i < |chosen| && chosen[i].Against? ==>
      |z.deflate(chosen[i].delta)| < |z.deflate(objects[i].content)|
  }

  ghost predicate Capped(depth: seq<nat>) {
    forall i :: 0 <= i < |depth| ==> depth[i] <= MAX_DELTA_DEPTH
  }

  ghost predicate Cached(objects: seq<PackObject>, indices: map<nat, DeltaIndex>, hash: seq<byte> -> int) {
    forall i :: i in indices ==> i < |objects| && Indexed(indices[i]) && indices[i] == FullIndex(objects[i].content, hash)
  }

  /** A base the search may use for object `i`. */
  predicate Eligible(objects: seq<PackObject>, depth: seq<nat>, i: nat, b: nat)
    requires i < |objects| && |depth| == |objects|
  {
    b < |objects| && objects[b].gitType == objects[i].gitType && depth[b] < MAX_DELTA_DEPTH
  }

  function DeltaOn(objects: seq<PackObject>, hash: seq<byte> -> int, i: nat, b: nat): seq<byte>
    requires i < |objects| && b < |objects|
  {
    DeltaFor(objects[b].content, hash, objects[i].content)
  }

  /** No eligible base among the first `n` recent objects has a delta shorter than `len`. */
  predicate NoneShorter(objects: seq<PackObject>, i: nat, recent: seq<nat>, n: nat, depth: seq<nat>, hash: seq<byte> -> int, len: nat)
    requires i < |objects| && |depth| == |objects|
  {
    forall r :: 0 <= r < n && r < |recent| && Eligible(objects, depth, i, recent[r]) ==> |DeltaOn(objects, hash, i, recent[r])| >= len
  }

  /** The first of the shortest deltas against an eligible base of the window, if it is shorter than the
      object itself. */
  ghost predicate IsBest(objects: seq<PackObject>, i: nat, recent: seq<nat>, window: nat, depth: seq<nat>, hash: seq<byte> -> int,
                         best: Choice)
    requires i < |objects| && |depth| == |objects|
  {
    match best
    case Whole => NoneShorter(objects, i, recent, window, depth, hash, |objects[i].content|)
    case Against(b, delta) => exists r: nat :: IsBestAt(objects, i, recent, window, depth, hash, b, delta, r)
  }

  ghost predicate IsBestAt(objects: seq<PackObject>, i: nat, recent: seq<nat>, window: nat, depth: seq<nat>, hash: seq<byte> -> int,
                           b: nat, delta: seq<byte>, r: nat)
    requires i < |objects| && |depth| == |objects|
  {
    && r < |recent| && r < window && recent[r] == b && Eligible(objects, depth, i, b)
    && delta == DeltaOn(objects, hash, i, b) && |delta| < |objects[i].content|
    && NoneShorter(objects, i, recent, window, depth, hash, |delta|)
    && NoneShorter(objects, i, recent, r, depth, hash, |delta| + 1)
  }

  method ShortestDelta(objects: seq<PackObject>, i: nat, recent: seq<nat>, window: nat, depth: seq<nat>,
                       indices: map<nat, DeltaIndex>, hash: seq<byte> -> int)
      returns (best: Choice)
    requires Packable(objects) && i < |objects| && |depth| == |objects|
    requires (forall b :: b in recent ==> b < |objects|) && Cached(objects, indices, hash)
    ensures IsBest(objects, i, recent, window, depth, hash, best)
  {
    hide Encodes, Encoded, FullIndex, Indexed;
    best := Whole;
    var target := objects[i].content;
    var bestLen := |target|;
    for r := 0 to if |recent| < window then |recent| else window
      invariant best.Whole? ==> bestLen == |target|
      invariant best.Against? ==> |best.delta| == bestLen
      invariant IsBest(objects, i, recent, r, depth, hash, best)
    {
      var b := recent[r];
      assert b in recent;
      ghost var earlier := best;
      if objects[b].gitType == objects[i].gitType && depth[b] < MAX_DELTA_DEPTH {
        var delta;
        if b in indices {
          delta := Encode(indices[b], hash, target);
        } else {
          var encoded, _ := EncodeDelta(objects[b].content, hash, target);
          delta := encoded;
        }
        if |delta| < bestLen { bestLen, best := |delta|, Against(b, delta); }
      }
      BestGoesOn(objects, i, recent, r, depth, hash, earlier, best);
    }
    BestOfAll(objects, i, recent, window, depth, hash, best);
  }

  /** One more recent object: it wins if it is eligible and strictly shorter. */
  lemma BestGoesOn(objects: seq<PackObject>, i: nat, recent: seq<nat>, r: nat, depth: seq<nat>, hash: seq<byte> -> int,
                   earlier: Choice, best: Choice)
    requires i < |objects| && |depth| == |objects| && r < |recent| && recent[r] < |objects|
    requires IsBest(objects, i, recent, r, depth, hash, earlier)
    requires var len, delta := if earlier.Whole? then |objects[i].content| else |earlier.delta|, DeltaOn(objects, hash, i, recent[r]);
      best == if Eligible(objects, depth, i, recent[r]) && |delta| < len then Against(recent[r], delta) else earlier
    ensures IsBest(objects, i, recent, r + 1, depth, hash, best)
  {
    hide DeltaOn, Eligible;
    if best == earlier {
      if best.Against? {
        var q: nat :| IsBestAt(objects, i, recent, r, depth, hash, best.base, best.delta, q);
        assert IsBestAt(objects, i, recent, r + 1, depth, hash, best.base, best.delta, q);
      }
    } else {
      if earlier.Against? {
        var q: nat :| IsBestAt(objects, i, recent, r, depth, hash, earlier.base, earlier.delta, q);
      }
      assert IsBestAt(objects, i, recent, r + 1, depth, hash, best.base, best.delta, r);
    }
  }

  lemma BestOfAll(objects: seq<PackObject>, i: nat, recent: seq<nat>, window: nat, depth: seq<nat>, hash: seq<byte> -> int, best: Choice)
    requires i < |objects| && |depth| == |objects|
    requires IsBest(objects, i, recent, if |recent| < window then |recent| else window, depth, hash, best)
    ensures IsBest(objects, i, recent, window, depth, hash, best)
  {
    hide DeltaOn, Eligible;
    if best.Against? {
      var n := if |recent| < window then |recent| else window;
      var q: nat :| IsBestAt(objects, i, recent, n, depth, hash, best.base, best.delta, q);
      assert IsBestAt(objects, i, recent, window, depth, hash, best.base, best.delta, q);
    }
  }

  /** The winner is applied and compared before it is kept. */
  method VerifiedDelta(z: Zlib, base: seq<byte>, delta: seq<byte>, target: seq<byte>) returns (keep: bool)
    ensures keep <==> ApplyDelta(base, delta) == Ok(target) && |z.deflate(delta)| < |z.deflate(target)|
  {
    hide ApplyDelta;
    var r := Apply(base, delta);
    keep := r == Ok(target) && |z.deflate(delta)| < |z.deflate(target)|;
  }

  lemma ChoiceExtends(objects: seq<PackObject>, order: seq<nat>, chosen: seq<Choice>, depth: seq<nat>, k: nat, c: Choice, d: nat)
    requires Selected(objects, order, chosen, depth, k) && k < |order|
    requires match c
      case Whole => d == 0
      case Against(b, delta) =>
        && b in order[..k] && objects[b].gitType == objects[order[k]].gitType
        && |delta| < |objects[order[k]].content|
        && ApplyDelta(objects[b].content, delta) == Ok(objects[order[k]].content) && d == depth[b] + 1
    ensures Selected(objects, order, chosen[order[k] := c], depth[order[k] := d], k + 1)
  {
    hide ApplyDelta;
    var chosen', depth' := chosen[order[k] := c], depth[order[k] := d];
    forall j | 0 <= j < k + 1 ensures Chosen(objects, order, chosen', depth', j) {
      if j < k { assert Chosen(objects, order, chosen, depth, j); }
    }
  }

  /** The best choice, kept only if it rebuilds the object and compresses better. */
  function Kept(z: Zlib, objects: seq<PackObject>, i: nat, best: Choice): Choice
    requires i < |objects|
  {
    if best.Against? && best.base < |objects| && ApplyDelta(objects[best.base].content, best.delta) == Ok(objects[i].content) &&
       |z.deflate(best.delta)| < |z.deflate(objects[i].content)|
    then best else Whole
  }

  ghost predicate IsPick(z: Zlib, objects: seq<PackObject>, i: nat, recent: seq<nat>, window: nat, depth: seq<nat>,
                         hash: seq<byte> -> int, c: Choice, d: nat)
    requires i < |objects| && |depth| == |objects|
  {
    && (exists best :: IsBest(objects, i, recent, window, depth, hash, best) && c == Kept(z, objects, i, best))
    && d == if c.Against? && c.base < |depth| then depth[c.base] + 1 else 0
  }

  /** The best base for object `i`, kept only if it is worth it. */
  method ChooseBase(z: Zlib, objects: seq<PackObject>, i: nat, recent: seq<nat>, window: nat, depth: seq<nat>,
                    indices: map<nat, DeltaIndex>, hash: seq<byte> -> int) returns (c: Choice, d: nat)
    requires Packable(objects) && i < |objects| && |depth| == |objects|
    requires (forall b :: b in recent ==> b < |objects|) && Cached(objects, indices, hash)
    ensures IsPick(z, objects, i, recent, window, depth, hash, c, d)
    ensures d <= MAX_DELTA_DEPTH
    ensures match c
      case Whole => d == 0
      case Against(b, delta) =>
        && b in recent && objects[b].gitType == objects[i].gitType
        && |delta| < |objects[i].content| && |z.deflate(delta)| < |z.deflate(objects[i].content)|
        && ApplyDelta(objects[b].content, delta) == Ok(objects[i].content) && d == depth[b] + 1
  {
    hide ApplyDelta, Indexed, IsBest;
    c, d := Whole, 0;
    var best := ShortestDelta(objects, i, recent, window, depth, indices, hash);
    if best.Against? {
      BestIsRecent(objects, i, recent, window, depth, hash, best);
      var keep := VerifiedDelta(z, objects[best.base].content, best.delta, objects[i].content);
      if keep { c, d := best, depth[best.base] + 1; }
    }
    assert c == Kept(z, objects, i, best);
    PickWorks(z, objects, i, recent, window, depth, hash, c, d);
  }

  lemma BestIsRecent(objects: seq<PackObject>, i: nat, recent: seq<nat>, window: nat, depth: seq<nat>, hash: seq<byte> -> int, best: Choice)
    requires i < |objects| && |depth| == |objects| && best.Against? && IsBest(objects, i, recent, window, depth, hash, best)
    ensures best.base in recent && Eligible(objects, depth, i, best.base) && |best.delta| < |objects[i].content|
  {
    hide NoneShorter, DeltaOn;
    var r: nat :| IsBestAt(objects, i, recent, window, depth, hash, best.base, best.delta, r);
  }

  /** What a pick is good for. */
  lemma PickWorks(z: Zlib, objects: seq<PackObject>, i: nat, recent: seq<nat>, window: nat, depth: seq<nat>,
                  hash: seq<byte> -> int, c: Choice, d: nat)
    requires i < |objects| && |depth| == |objects| && IsPick(z, objects, i, recent, window, depth, hash, c, d)
    ensures d <= MAX_DELTA_DEPTH
    ensures match c
      case Whole => d == 0
      case Against(b, delta) =>
        && b in recent && objects[b].gitType == objects[i].gitType
        && |delta| < |objects[i].content| && |z.deflate(delta)| < |z.deflate(objects[i].content)|
        && ApplyDelta(objects[b].content, delta) == Ok(objects[i].content) && d == depth[b] + 1
  {
    hide ApplyDelta, IsBest;
    var best :| IsBest(objects, i, recent, window, depth, hash, best) && c == Kept(z, objects, i, best);
    if best.Against? { BestIsRecent(objects, i, recent, window, depth, hash, best); }
  }

  /** The objects the window still holds when the `k`th of the order comes up, latest first. */
  function Recent(order: seq<nat>, k: nat, window: nat): (r: seq<nat>)
    requires k <= |order|
    ensures forall b :: b in r ==> b in order[..k]
  {
    var n := if window > 1 then window else 1;
    seq(if k < n then k else n, j requires 0 <= j < k => order[k - 1 - j])
  }

  lemma RecentNext(order: seq<nat>, k: nat, window: nat)
    requires k < |order|
    ensures var n, more := if window > 1 then window else 1, [order[k]] + Recent(order, k, window);
      Recent(order, k + 1, window) == if |more| > n then more[..|more| - 1] else more
  {}

  ghost predicate PickedAt(z: Zlib, objects: seq<PackObject>, order: seq<nat>, window: nat, hash: seq<byte> -> int,
                           chosen: seq<Choice>, depth: seq<nat>, k: nat)
    requires Lists(order, |objects|) && |chosen| == |depth| == |objects| && k < |order|
  {
    if window == 0 then chosen[order[k]] == Whole && depth[order[k]] == 0
    else IsPick(z, objects, order[k], Recent(order, k, window), window, depth, hash, chosen[order[k]], depth[order[k]])
  }

  /** Every object was decided by the window search, in order. */
  ghost predicate Greedy(z: Zlib, objects: seq<PackObject>, order: seq<nat>, window: nat, hash: seq<byte> -> int,
                         chosen: seq<Choice>, depth: seq<nat>, upTo: nat)
  {
    && Lists(order, |objects|) && |chosen| == |depth| == |objects| && upTo <= |order|
    && forall k :: 0 <= k < upTo ==> PickedAt(z, objects, order, window, hash, chosen, depth, k)
  }

  /** A pick depends on the depths of the recent objects only. */
  lemma PickStays(z: Zlib, objects: seq<PackObject>, i: nat, recent: seq<nat>, window: nat, depth: seq<nat>, depth': seq<nat>,
                  hash: seq<byte> -> int, c: Choice, d: nat)
    requires i < |objects| && |depth| == |depth'| == |objects| && IsPick(z, objects, i, recent, window, depth, hash, c, d)
    requires forall b :: b in recent && b < |depth| ==> depth'[b] == depth[b]
    ensures IsPick(z, objects, i, recent, window, depth', hash, c, d)
  {
    hide Kept;
    var best :| IsBest(objects, i, recent, window, depth, hash, best) && c == Kept(z, objects, i, best);
    BestStays(objects, i, recent, window, depth, depth', hash, best);
    KeptIsBest(z, objects, i, best);
    if best.Against? { BestIsRecent(objects, i, recent, window, depth, hash, best); }
    hide IsBest;
  }

  lemma KeptIsBest(z: Zlib, objects: seq<PackObject>, i: nat, best: Choice)
    requires i < |objects|
    ensures Kept(z, objects, i, best) == best || Kept(z, objects, i, best) == Whole
  {
    hide ApplyDelta;
  }

  lemma BestStays(objects: seq<PackObject>, i: nat, recent: seq<nat>, window: nat, depth: seq<nat>, depth': seq<nat>,
                  hash: seq<byte> -> int, best: Choice)
    requires i < |objects| && |depth| == |depth'| == |objects| && IsBest(objects, i, recent, window, depth, hash, best)
    requires forall b :: b in recent && b < |depth| ==> depth'[b] == depth[b]
    ensures IsBest(objects, i, recent, window, depth', hash, best)
  {
    hide DeltaOn;
    forall b | b in recent ensures Eligible(objects, depth', i, b) == Eligible(objects, depth, i, b) {}
    hide Eligible;
    assert forall n: nat, len: nat :: NoneShorter(objects, i, recent, n, depth', hash, len) == NoneShorter(objects, i, recent, n, depth, hash, len);
    hide NoneShorter;
    if best.Against? {
      var r: nat :| IsBestAt(objects, i, recent, window, depth, hash, best.base, best.delta, r);
      assert recent[r] in recent;
      assert IsBestAt(objects, i, recent, window, depth', hash, best.base, best.delta, r);
    }
  }

  lemma GreedyNext(z: Zlib, objects: seq<PackObject>, order: seq<nat>, window: nat, hash: seq<byte> -> int,
                   chosen: seq<Choice>, depth: seq<nat>, k: nat, c: Choice, d: nat)
    requires Greedy(z, objects, order, window, hash, chosen, depth, k) && k < |order|
    requires if window == 0 then c == Whole && d == 0
      else IsPick(z, objects, order[k], Recent(order, k, window), window, depth, hash, c, d)
    ensures Greedy(z, objects, order, window, hash, chosen[order[k] := c], depth[order[k] := d], k + 1)
  {
    hide IsPick;
    var chosen', depth' := chosen[order[k] := c], depth[order[k] := d];
    forall j | 0 <= j < k + 1 ensures PickedAt(z, objects, order, window, hash, chosen', depth', j) {
      assert order[j] == order[k] ==> j == k;
      forall b | b in Recent(order, j, window) && b < |depth| ensures depth'[b] == depth[b] {
        assert b in order[..j];
        var q :| 0 <= q < j && order[q] == b;
      }
      if j < k { assert PickedAt(z, objects, order, window, hash, chosen, depth, j); }
      if window > 0 {
        PickStays(z, objects, order[j], Recent(order, j, window), window, depth, depth', hash, chosen'[order[j]], depth'[order[j]]);
      }
    }
  }

  ghost predicate Decided(z: Zlib, objects: seq<PackObject>, order: seq<nat>, window: nat, hash: seq<byte> -> int,
                          chosen: seq<Choice>, depth: seq<nat>, upTo: nat)
  {
    && Selected(objects, order, chosen, depth, upTo) && Capped(depth) && Saves(z, objects, chosen)
    && Greedy(z, objects, order, window, hash, chosen, depth, upTo)
  }

  lemma DecidedNext(z: Zlib, objects: seq<PackObject>, order: seq<nat>, window: nat, hash: seq<byte> -> int,
                    chosen: seq<Choice>, depth: seq<nat>, k: nat, c: Choice, d: nat)
    requires Decided(z, objects, order, window, hash, chosen, depth, k) && k < |order|
    requires if window == 0 then c == Whole && d == 0
      else IsPick(z, objects, order[k], Recent(order, k, window), window, depth, hash, c, d)
    ensures Decided(z, objects, order, window, hash, chosen[order[k] := c], depth[order[k] := d], k + 1)
  {
    hide ApplyDelta, Recent, IsPick;
    if window > 0 { PickWorks(z, objects, order[k], Recent(order, k, window), window, depth, hash, c, d); }
    ChoiceExtends(objects, order, chosen, depth, k, c, d);
    GreedyNext(z, objects, order, window, hash, chosen, depth, k, c, d);
    hide Selected, Greedy;
  }

  /** The window moves on: `i` enters it, and what leaves it loses its index. */
  method Slide(objects: seq<PackObject>, i: nat, recent: seq<nat>, indices: map<nat, DeltaIndex>, window: nat, hash: seq<byte> -> int)
      returns (recent': seq<nat>, indices': map<nat, DeltaIndex>)
    requires i < |objects| && Cached(objects, indices, hash)
    ensures Cached(objects, indices', hash)
    ensures var n, more := if window > 1 then window else 1, [i] + recent;
      recent' == if |more| > n then more[..|more| - 1] else more
  {
    hide FullIndex, Indexed;
    recent', indices' := [i] + recent, indices;
    if window > 0 {
      var idx := BuildIndex(objects[i].content, hash);
      assert Indexed(idx) by { IndexOfIsIndexed(idx, hash); }
      indices' := indices'[i := idx];
    }
    if |recent'| > (if window > 1 then window else 1) {
      indices' := indices' - {recent'[|recent'| - 1]};
      recent' := recent'[..|recent'| - 1];
    }
  }

  lemma RecentInRange(objects: seq<PackObject>, order: seq<nat>, k: nat, window: nat)
    requires Lists(order, |objects|) && k <= |order|
    ensures forall b :: b in Recent(order, k, window) ==> b < |objects|
  {
    hide Recent;
    forall b | b in Recent(order, k, window) ensures b < |objects| { assert b in order[..k]; }
  }

  lemma NothingDecided(z: Zlib, objects: seq<PackObject>, order: seq<nat>, window: nat, hash: seq<byte> -> int)
    requires Lists(order, |objects|)
    ensures var n := |objects|; Decided(z, objects, order, window, hash, seq(n, _ => Whole), seq(n, _ => 0), 0)
    ensures Recent(order, 0, window) == []
  {}

  method SelectBases(z: Zlib, objects: seq<PackObject>, order: seq<nat>, window: nat, hash: seq<byte> -> int)
      returns (chosen: seq<Choice>, depth: seq<nat>)
    requires Packable(objects) && Lists(order, |objects|)
    ensures Selected(objects, order, chosen, depth, |order|) && Capped(depth) && Saves(z, objects, chosen)
    ensures Greedy(z, objects, order, window, hash, chosen, depth, |order|)
  {
    hide Packable, Cached, Selected, Greedy, Capped, Saves, IsPick;
    var n := |objects|;
    chosen, depth := seq(n, _ => Whole), seq(n, _ => 0);
    var recent: seq<nat>, indices: map<nat, DeltaIndex> := [], map[];
    NothingDecided(z, objects, order, window, hash);
    assert Cached(objects, indices, hash) by { NothingCached(objects, hash); }
    hide Recent;
    for k := 0 to n
      invariant |chosen| == |depth| == n && Decided(z, objects, order, window, hash, chosen, depth, k)
      invariant Cached(objects, indices, hash) && recent == Recent(order, k, window)
    {
      hide Decided;
      var i := order[k];
      var c, d := Whole, 0;
      RecentInRange(objects, order, k, window);
      if window > 0 { c, d := ChooseBase(z, objects, i, recent, window, depth, indices, hash); }
      DecidedNext(z, objects, order, window, hash, chosen, depth, k, c, d);
      RecentNext(order, k, window);
      chosen, depth := chosen[i := c], depth[i := d];
      recent, indices := Slide(objects, i, recent, indices, window, hash);
    }
  }

  lemma NothingCached(objects: seq<PackObject>, hash: seq<byte> -> int)
    ensures Cached(objects, map[], hash)
  {}

  // ----- layout ------------------------------------------------------------------------------

  function EntryOf(objects: seq<PackObject>, chosen: seq<Choice>, offsets: seq<nat>, i: nat): Entry
    requires i < |objects| == |chosen| == |offsets|
  {
    match chosen[i]
    case Whole => Full(objects[i].gitType, objects[i].content)
    case Against(b, delta) => OfsDelta(if b < |offsets| && offsets[b] <= offsets[i] then offsets[i] - offsets[b] else 0, delta)
  }

  /** The first `upTo` entries of the order lie back to back from byte 12, at `starts`. */
  ghost predicate Laid(z: Zlib, objects: seq<PackObject>, order: seq<nat>, chosen: seq<Choice>,
                       offsets: seq<nat>, starts: seq<nat>, pack: seq<byte>, upTo: nat)
  {
    && Lists(order, |objects|) && |chosen| == |offsets| == |objects| && upTo <= |order|
    && |starts| == upTo + 1 && starts[0] == 12 && starts[upTo] <= |pack|
    && forall k :: 0 <= k < upTo ==> LaidAt(z, objects, order, chosen, offsets, starts, pack, k)
  }

  ghost predicate LaidAt(z: Zlib, objects: seq<PackObject>, order: seq<nat>, chosen: seq<Choice>,
                         offsets: seq<nat>, starts: seq<nat>, pack: seq<byte>, k: nat)
    requires Lists(order, |objects|) && |chosen| == |offsets| == |objects| && k < |order| && k + 1 < |starts|
  {
    var e := EntryOf(objects, chosen, offsets, order[k]);
    && WellFormed(e)
    && offsets[order[k]] == starts[k]
    && starts[k + 1] == starts[k] + |EntryBytes(z, e)|
    && EntryAt(z, pack, starts[k], e)
  }
}
