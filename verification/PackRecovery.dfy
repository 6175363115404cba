/**
 Rebuilding a node's pack directory from the cold store: what survives locally does
 not matter, a second pass finds nothing to do, and what a stop right after can undo.
 */
module PackRecovery {
  import opened Bytes
  import opened Options
  import opened PackTiering

  predicate BodyReachable(fs: Files, n: Name) {
    Now(fs, File(n, Body)).Some? || Now(fs, File(n, Marker)).Some?
  }

  /** The pass takes such a pack to be usable and leaves it alone. */
  predicate Ready(fs: Files, n: Name) { Now(fs, File(n, Lidx)).Some? && BodyReachable(fs, n) }

  /** The cold store lacks something the packfile needs. */
  predicate Blocked(fs: Files, cold: Cold, n: Name) {
    !Ready(fs, n) && (File(n, Body) !in cold || (Now(fs, File(n, Idx)).None? && File(n, Idx) !in cold))
  }

  function Refill(fs: Files, cold: Cold, f: File): Files
    requires f in cold
  {
    if Now(fs, f).None? then WriteFile(fs, f, cold[f]) else fs
  }

  function Mark(fs: Files, n: Name): Files {
    SyncDir(SyncFile(WriteFile(fs, File(n, Marker), Key(File(n, Body))), File(n, Marker)))
  }

  /** The directory once pack `n` has been seen to. */
  function Repaired(fs: Files, cold: Cold, n: Name): Files
    requires File(n, Lidx) in cold && !Blocked(fs, cold, n)
  {
    if Ready(fs, n) then fs
    else
      var fs1 := Refill(fs, cold, File(n, Lidx));
      var fs2 := if Now(fs, File(n, Idx)).None? then Refill(fs1, cold, File(n, Idx)) else fs1;
      if BodyReachable(fs, n) then fs2 else Mark(fs2, n)
  }

  function Unready(fs: Files, names: seq<Name>): nat {
    if names == [] then 0 else Unready(fs, names[..|names| - 1]) + if Ready(fs, names[|names| - 1]) then 0 else 1
  }

  /** Every local file of the packfile that is there is right. */
  predicate Remnant(fs: Files, n: Name, p: Pack) {
    && (Now(fs, File(n, Body)).Some? ==> Now(fs, File(n, Body)).value == p.body)
    && (Now(fs, File(n, Idx)).Some? ==> Now(fs, File(n, Idx)).value == p.idx)
    && (Now(fs, File(n, Lidx)).Some? ==> Now(fs, File(n, Lidx)).value == p.lidx)
    && (Now(fs, File(n, Marker)).Some? ==> Now(fs, File(n, Marker)).value == Key(File(n, Body)))
  }

  ghost predicate SameFor(fs: Files, fs': Files, n: Name) {
    forall k :: Now(fs', File(n, k)) == Now(fs, File(n, k))
  }

  lemma RepairIsLocal(fs: Files, cold: Cold, n: Name)
    requires File(n, Lidx) in cold && !Blocked(fs, cold, n)
    ensures forall m :: m != n ==> SameFor(fs, Repaired(fs, cold, n), m)
    ensures Ready(Repaired(fs, cold, n), n)
  {}

  lemma RepairIsRight(fs: Files, cold: Cold, n: Name, p: Pack)
    requires Tiered(cold, n, p) && Remnant(fs, n, p)
    ensures !Blocked(fs, cold, n) && Usable(Repaired(fs, cold, n), cold, n, p) && Remnant(Repaired(fs, cold, n), n, p)
  {}

  lemma {:induction false} SameUnready(fs: Files, fs': Files, names: seq<Name>)
    requires forall n :: n in names ==> SameFor(fs, fs', n)
    ensures Unready(fs', names) == Unready(fs, names)
  {
    if names != [] {
      SameUnready(fs, fs', names[..|names| - 1]);
      assert SameFor(fs, fs', names[|names| - 1]);
    }
  }

  lemma {:induction false} ReadyCountsNone(fs: Files, names: seq<Name>)
    requires forall n :: n in names ==> Ready(fs, n)
    ensures Unready(fs, names) == 0
  {
    if names != [] { ReadyCountsNone(fs, names[..|names| - 1]); }
  }

  ghost predicate Distinct(names: seq<Name>) {
    forall i, j :: 0 <= i < j < |names| ==> names[i] != names[j]
  }

  lemma RepairFollowsNow(fs: Files, fs': Files, cold: Cold, n: Name)
    requires SameFor(fs, fs', n) && File(n, Lidx) in cold
    ensures Blocked(fs', cold, n) == Blocked(fs, cold, n) && Ready(fs', n) == Ready(fs, n)
    ensures !Blocked(fs, cold, n) ==> SameFor(Repaired(fs, cold, n), Repaired(fs', cold, n), n)
  {
    hide Repaired, Now;
    forall k ensures Now(fs', File(n, k)) == Now(fs, File(n, k)) {}
    if !Blocked(fs, cold, n) {
      RepairedNow(fs, cold, n);
      RepairedNow(fs', cold, n);
      forall k ensures Now(Repaired(fs', cold, n), File(n, k)) == Now(Repaired(fs, cold, n), File(n, k)) {
        assert k.Body? || k.Idx? || k.Lidx? || k.Marker? || k.Temp?;
      }
    }
  }

  /** What the files of the packfile hold after it has been seen to. */
  lemma RepairedNow(fs: Files, cold: Cold, n: Name)
    requires File(n, Lidx) in cold && !Blocked(fs, cold, n)
    ensures var fs' := Repaired(fs, cold, n);
      && Now(fs', File(n, Body)) == Now(fs, File(n, Body)) && Now(fs', File(n, Temp)) == Now(fs, File(n, Temp))
      && Now(fs', File(n, Lidx)) == (if Now(fs, File(n, Lidx)).Some? then Now(fs, File(n, Lidx)) else Some(cold[File(n, Lidx)]))
      && Now(fs', File(n, Idx)) ==
         (if Ready(fs, n) || Now(fs, File(n, Idx)).Some? then Now(fs, File(n, Idx)) else Some(cold[File(n, Idx)]))
      && Now(fs', File(n, Marker)) ==
         (if BodyReachable(fs, n) then Now(fs, File(n, Marker)) else Some(Key(File(n, Body))))
  {}

  method RepairOne(d: PackDir, n: Name) returns (r: Outcome, repaired: bool)
    requires File(n, Lidx) in d.cold
    modifies d`fs
    ensures r == if Blocked(old(d.fs), d.cold, n) then Failed else Finished
    ensures r == Finished ==> d.fs == Repaired(old(d.fs), d.cold, n) && repaired == !Ready(old(d.fs), n)
  {
    hide WriteFile, SyncFile, SyncDir;
    r, repaired := Finished, false;
    var lidx, idx, marker := File(n, Lidx), File(n, Idx), File(n, Marker);
    var reachable, noIdx := BodyReachable(d.fs, n), Now(d.fs, idx).None?;
    if Now(d.fs, lidx).Some? && reachable { return; }
    if File(n, Body) !in d.cold { return Failed, false; }
    if Now(d.fs, lidx).None? { d.fs := WriteFile(d.fs, lidx, d.cold[lidx]); }
    IdxUntouched(old(d.fs), d.fs, d.cold, n);
    if Now(d.fs, idx).None? {
      if idx !in d.cold { return Failed, false; }
      d.fs := WriteFile(d.fs, idx, d.cold[idx]);
    }
    if !reachable {
      d.fs := WriteFile(d.fs, marker, Key(File(n, Body)));
      d.fs := SyncFile(d.fs, marker);
      d.fs := SyncDir(d.fs);
    }
    repaired := true;
  }

  lemma IdxUntouched(fs: Files, fs': Files, cold: Cold, n: Name)
    requires File(n, Lidx) in cold && fs' == Refill(fs, cold, File(n, Lidx))
    ensures Now(fs', File(n, Idx)) == Now(fs, File(n, Idx))
  {}

  lemma CountOneMore(fs: Files, names: seq<Name>, i: nat)
    requires i < |names|
    ensures Unready(fs, names[..i + 1]) == Unready(fs, names[..i]) + if Ready(fs, names[i]) then 0 else 1
  {
    assert names[..i + 1][..i] == names[..i];
  }

  /** One pass over the packs the cold store lists. It fails exactly if one of them is blocked;
      otherwise every pack that was not ready is counted and made ready. */
  method RecoverFromCold(d: PackDir, names: seq<Name>) returns (r: Outcome, recovered: nat)
    requires Distinct(names) && forall n :: n in names ==> File(n, Lidx) in d.cold
    modifies d`fs
    ensures r != Stopped && (r == Failed <==> exists n :: n in names && Blocked(old(d.fs), d.cold, n))
    ensures r == Finished ==> recovered == Unready(old(d.fs), names) && Unready(d.fs, names) == 0
    ensures r == Finished ==> forall n :: n in names ==> SameFor(Repaired(old(d.fs), d.cold, n), d.fs, n)
    ensures r == Finished ==> forall n :: n !in names ==> SameFor(old(d.fs), d.fs, n)
  {
    hide Repaired, Unready, SameFor, Ready, Blocked;
    recovered := 0;
    ghost var before := d.fs;
    StartsEqual(before, names);
    for i := 0 to |names|
      invariant recovered == Unready(before, names[..i])
      invariant forall n :: n !in names[..i] ==> SameFor(before, d.fs, n)
      invariant forall n :: n in names[..i] ==> !Blocked(before, d.cold, n) && SameFor(Repaired(before, d.cold, n), d.fs, n)
    {
      var n := names[i];
      ghost var fs := d.fs;
      RepairFollowsNow(before, fs, d.cold, n);
      var repaired;
      r, repaired := RepairOne(d, n);
      if r == Failed { return; }
      RepairIsLocal(fs, d.cold, n);
      CountOneMore(before, names, i);
      if repaired { recovered := recovered + 1; }
      assert names[..i + 1] == names[..i] + [n];
      forall m | m !in names[..i + 1] ensures SameFor(before, d.fs, m) { SameStays(before, fs, d.fs, m); }
      forall m | m in names[..i] ensures SameFor(Repaired(before, d.cold, m), d.fs, m) {
        SameStays(Repaired(before, d.cold, m), fs, d.fs, m);
      }
    }
    r := Finished;
    assert names[..|names|] == names;
    forall n | n in names ensures Ready(d.fs, n) {
      RepairIsLocal(before, d.cold, n);
      ReadyFollows(Repaired(before, d.cold, n), d.fs, n);
    }
    ReadyCountsNone(d.fs, names);
  }

  lemma StartsEqual(fs: Files, names: seq<Name>)
    ensures Unready(fs, names[..0]) == 0 && forall n :: SameFor(fs, fs, n)
  {}

  lemma SameStays(a: Files, b: Files, c: Files, n: Name)
    requires SameFor(a, b, n) && SameFor(b, c, n)
    ensures SameFor(a, c, n)
  {
    forall k ensures Now(c, File(n, k)) == Now(a, File(n, k)) { assert Now(b, File(n, k)) == Now(a, File(n, k)); }
  }

  lemma ReadyFollows(a: Files, b: Files, n: Name)
    requires SameFor(a, b, n)
    ensures Ready(b, n) == Ready(a, n)
  {
    forall k ensures Now(b, File(n, k)) == Now(a, File(n, k)) {}
  }

  /** From any surviving subset of the local files, recovery brings every fully tiered pack
      back within reach, and doing it again recovers nothing. */
  method RecoverTwice(d: PackDir, names: seq<Name>, ghost packs: Packs) returns (first: nat, second: nat)
    requires Distinct(names)
    requires forall n :: n in names ==> n in packs && Tiered(d.cold, n, packs[n]) && Remnant(d.fs, n, packs[n])
    modifies d`fs
    ensures forall n :: n in names ==> Usable(d.fs, d.cold, n, packs[n])
    ensures first == Unready(old(d.fs), names) && second == 0
  {
    hide Repaired, Unready, SameFor, Ready, Blocked, Usable, Remnant;
    ghost var before := d.fs;
    forall n | n in names ensures !Blocked(before, d.cold, n) { RepairIsRight(before, d.cold, n, packs[n]); }
    var r;
    r, first := RecoverFromCold(d, names);
    ghost var middle := d.fs;
    forall n | n in names ensures Usable(middle, d.cold, n, packs[n]) && Remnant(middle, n, packs[n]) {
      RepairIsRight(before, d.cold, n, packs[n]);
      UsableFollows(Repaired(before, d.cold, n), middle, d.cold, n, packs[n]);
    }
    forall n | n in names ensures !Blocked(middle, d.cold, n) { RepairIsRight(middle, d.cold, n, packs[n]); }
    r, second := RecoverFromCold(d, names);
    forall n | n in names ensures Usable(d.fs, d.cold, n, packs[n]) {
      RepairIsRight(middle, d.cold, n, packs[n]);
      UsableFollows(Repaired(middle, d.cold, n), d.fs, d.cold, n, packs[n]);
    }
  }

  lemma UsableFollows(a: Files, b: Files, cold: Cold, n: Name, p: Pack)
    requires SameFor(a, b, n)
    ensures Usable(a, cold, n, p) == Usable(b, cold, n, p) && Remnant(a, n, p) == Remnant(b, n, p)
  {
    forall k ensures Now(b, File(n, k)) == Now(a, File(n, k)) {}
  }

  // ----- stopping right after recovery ----------------------------------------------------------------

  ghost predicate AllClean(fs: Files) { forall f :: At(fs, f).clean && !At(fs, f).torn }

  /** Recovery syncs the marker but not the index it downloads. The packfile is safe against a
      stop right afterwards exactly if its index was still there. */
  lemma RecoveryLastsIff(fs: Files, cold: Cold, n: Name, p: Pack)
    requires Tiered(cold, n, p) && Remnant(fs, n, p) && AllClean(fs)
    ensures !Blocked(fs, cold, n)
    ensures (forall after :: MaySurvive(Repaired(fs, cold, n), after) ==> Usable(after, cold, n, p))
      <==> Now(fs, File(n, Lidx)).Some?
  {
    RepairIsRight(fs, cold, n, p);
    if Now(fs, File(n, Lidx)).Some? {
      forall after | MaySurvive(Repaired(fs, cold, n), after) ensures Usable(after, cold, n, p) {
        IndexedSurvives(fs, after, cold, n, p);
      }
    } else {
      var after := TornIndex(fs, cold, n, p);
    }
  }

  lemma IndexedSurvives(fs: Files, after: Files, cold: Cold, n: Name, p: Pack)
    requires Tiered(cold, n, p) && Remnant(fs, n, p) && AllClean(fs) && !Blocked(fs, cold, n)
    requires Now(fs, File(n, Lidx)).Some? && MaySurvive(Repaired(fs, cold, n), after)
    ensures Usable(after, cold, n, p)
  {
    var fs' := Repaired(fs, cold, n);
    assert At(fs', File(n, Lidx)).clean && At(fs', File(n, Body)).clean && At(fs', File(n, Marker)).clean;
    assert forall k :: MayHold(At(fs', File(n, k)), Now(after, File(n, k)));
    RepairedNow(fs, cold, n);
  }

  /** The next pass then finds an index and a marker, and leaves the torn index in place. */
  lemma TornIndex(fs: Files, cold: Cold, n: Name, p: Pack) returns (after: Files)
    requires Tiered(cold, n, p) && Remnant(fs, n, p) && AllClean(fs) && !Blocked(fs, cold, n)
    requires Now(fs, File(n, Lidx)).None?
    ensures MaySurvive(Repaired(fs, cold, n), after) && !Usable(after, cold, n, p)
    ensures Ready(after, n) && Repaired(after, cold, n) == after
  {
    var fs', junk := Repaired(fs, cold, n), Key(File(n, Temp));
    RepairedNow(fs, cold, n);
    assert At(fs', File(n, Lidx)).torn && !At(fs', File(n, Lidx)).clean;
    var bad := if p.lidx == junk then Key(File(n, Body)) else junk;
    after := Torn(fs', File(n, Lidx), bad);
    TornSurvives(fs', File(n, Lidx), bad);
    hide Refill, Mark, Torn, MaySurvive, AllClean;
  }

  /** A crash that keeps what was last written, but mangles one file. */
  function Torn(fs: Files, f: File, bad: Data): Files {
    (map g | g in fs :: Slot(fs[g].now, fs[g].now, true, false))[f := Slot(Some(bad), Some(bad), true, false)]
  }

  lemma TornSurvives(fs: Files, f: File, bad: Data)
    requires At(fs, f).torn && !At(fs, f).clean
    ensures MaySurvive(fs, Torn(fs, f, bad))
    ensures forall g :: Now(Torn(fs, f, bad), g) == if g == f then Some(bad) else Now(fs, g)
  {}
}
