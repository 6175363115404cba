/**
 Moving pack bodies to a cold store and getting them back, on a file system that may
 lose or tear whatever was not synced when the node stops.
 */
module PackTiering {
  import opened Bytes
  import opened Options

  type Name = nat

  datatype Kind = Body | Idx | Lidx | Marker | Temp
  datatype File = File(pack: Name, kind: Kind)

  /** A marker's text is the cold-store key of a body. */
  datatype Data = Content(bytes: seq<byte>) | Key(file: File)

  type Cold = map<File, Data>

  // ----- files that may not survive ---------------------------------------------------------------

  /** What a path holds now, what it held when last synced, whether the two are known to
      agree on disk, and whether the bytes themselves are still unsynced. */
  datatype Slot = Slot(now: Option<Data>, durable: Option<Data>, clean: bool, torn: bool)

  type Files = map<File, Slot>

  function At(fs: Files, f: File): Slot {
    if f in fs then fs[f] else Slot(None, None, true, false)
  }

  function Now(fs: Files, f: File): Option<Data> { At(fs, f).now }

  function WriteFile(fs: Files, f: File, d: Data): Files { fs[f := Slot(Some(d), At(fs, f).durable, false, true)] }

  function SyncFile(fs: Files, f: File): Files { fs[f := At(fs, f).(torn := false)] }

  /** Directory entries become durable; unsynced bytes do not. */
  function SyncDir(fs: Files): Files {
    map f | f in fs :: if fs[f].torn then fs[f] else Slot(fs[f].now, fs[f].now, true, false)
  }

  function Remove(fs: Files, f: File): Files { fs[f := Slot(None, At(fs, f).durable, false, false)] }

  function Rename(fs: Files, from: File, to: File): Files {
    Remove(fs, from)[to := Slot(At(fs, from).now, At(fs, to).durable, false, At(fs, from).torn)]
  }

  /** What a path may hold after the node stops. */
  predicate MayHold(s: Slot, v: Option<Data>) {
    v == s.now || (!s.clean && (v == s.durable || (s.torn && v.Some?)))
  }

  ghost predicate MaySurvive(fs: Files, after: Files) {
    forall f :: At(after, f).clean && MayHold(At(fs, f), Now(after, f))
  }

  // ----- a pack within reach ----------------------------------------------------------------------

  datatype Pack = Pack(body: Data, idx: Data, lidx: Data)

  type Packs = map<Name, Pack>

  /** Registered through its index, with the body here or behind a marker. */
  predicate Usable(fs: Files, cold: Cold, n: Name, p: Pack) {
    && Now(fs, File(n, Lidx)) == Some(p.lidx)
    && (Now(fs, File(n, Body)) == Some(p.body) ||
        (Now(fs, File(n, Body)) == None && Now(fs, File(n, Marker)) == Some(Key(File(n, Body))) &&
         File(n, Body) in cold && cold[File(n, Body)] == p.body))
  }

  predicate Firm(s: Slot, d: Data) { s.clean && s.now == Some(d) }

  /** Either gone or right, now and after any stop. */
  predicate NeverWrong(s: Slot, d: Data) {
    !s.torn && (s.now == None || s.now == Some(d)) && (s.durable == None || s.durable == Some(d))
  }

  predicate Pointed(fs: Files, cold: Cold, n: Name, p: Pack) {
    && Firm(At(fs, File(n, Marker)), Key(File(n, Body)))
    && File(n, Body) in cold && cold[File(n, Body)] == p.body
  }

  predicate Healthy(fs: Files, cold: Cold, n: Name, p: Pack) {
    && Firm(At(fs, File(n, Lidx)), p.lidx) && Firm(At(fs, File(n, Idx)), p.idx)
    && NeverWrong(At(fs, File(n, Body)), p.body)
    && (Firm(At(fs, File(n, Body)), p.body) || Pointed(fs, cold, n, p))
  }

  ghost predicate AllHealthy(fs: Files, cold: Cold, packs: Packs) {
    forall n :: n in packs ==> Healthy(fs, cold, n, packs[n])
  }

  /** A healthy pack is within reach after any stop. */
  lemma HealthySurvives(fs: Files, after: Files, cold: Cold, n: Name, p: Pack)
    requires Healthy(fs, cold, n, p) && MaySurvive(fs, after)
    ensures Usable(after, cold, n, p)
  {
    assert forall k :: MayHold(At(fs, File(n, k)), Now(after, File(n, k)));
  }

  lemma SyncKeepsHealthy(fs: Files, cold: Cold, packs: Packs)
    requires AllHealthy(fs, cold, packs)
    ensures AllHealthy(SyncDir(fs), cold, packs)
  {
    forall n | n in packs ensures Healthy(SyncDir(fs), cold, n, packs[n]) {
      assert Healthy(fs, cold, n, packs[n]);
      forall k ensures At(fs, File(n, k)).torn || Now(SyncDir(fs), File(n, k)) == Now(fs, File(n, k)) {}
    }
  }

  /** Files that no healthy pack relies on can change. */
  lemma OthersStayHealthy(fs: Files, fs': Files, cold: Cold, cold': Cold, packs: Packs, changed: File)
    requires AllHealthy(fs, cold, packs)
    requires forall f :: f != changed ==> At(fs', f) == At(fs, f)
    requires forall f :: f in cold ==> f in cold' && cold'[f] == cold[f]
    requires changed.pack in packs ==> Healthy(fs', cold', changed.pack, packs[changed.pack])
    ensures AllHealthy(fs', cold', packs)
  {
    forall n | n in packs ensures Healthy(fs', cold', n, packs[n]) {
      assert Healthy(fs, cold, n, packs[n]);
    }
  }

  /** Whatever the cold store holds of a pack is that pack's own. */
  ghost predicate ColdSound(cold: Cold, packs: Packs) {
    forall n :: n in packs ==>
      && ColdHas(cold, File(n, Body), packs[n].body)
      && ColdHas(cold, File(n, Idx), packs[n].idx)
      && ColdHas(cold, File(n, Lidx), packs[n].lidx)
  }

  predicate ColdHas(cold: Cold, f: File, d: Data) { f in cold ==> cold[f] == d }

  ghost predicate Kept(fs: Files, cold: Cold, packs: Packs) { AllHealthy(fs, cold, packs) && ColdSound(cold, packs) }

  /** The packs the cold store could rebuild from scratch. */
  predicate Tiered(cold: Cold, n: Name, p: Pack) {
    && File(n, Body) in cold && cold[File(n, Body)] == p.body
    && File(n, Idx) in cold && cold[File(n, Idx)] == p.idx
    && File(n, Lidx) in cold && cold[File(n, Lidx)] == p.lidx
  }

  // ----- single steps -------------------------------------------------------------------------------

  lemma UploadKeeps(fs: Files, cold: Cold, packs: Packs, f: File)
    requires Kept(fs, cold, packs) && f.pack in packs && (f.kind.Body? || f.kind.Idx? || f.kind.Lidx?) && Now(fs, f).Some?
    ensures Kept(fs, cold[f := Now(fs, f).value], packs)
  {
    assert Healthy(fs, cold, f.pack, packs[f.pack]);
    OthersStayHealthy(fs, fs, cold, cold[f := Now(fs, f).value], packs, f);
  }

  lemma MarkerKeeps(fs: Files, cold: Cold, packs: Packs, n: Name, fs': Files)
    requires Kept(fs, cold, packs) && n in packs && Firm(At(fs, File(n, Body)), packs[n].body)
    requires forall f :: f != File(n, Marker) ==> At(fs', f) == At(fs, f)
    ensures Kept(fs', cold, packs) && Firm(At(fs', File(n, Body)), packs[n].body)
  {
    assert Healthy(fs, cold, n, packs[n]);
    OthersStayHealthy(fs, fs', cold, cold, packs, File(n, Marker));
  }

  lemma SyncKeeps(fs: Files, cold: Cold, packs: Packs, f: File, d: Data)
    requires Kept(fs, cold, packs)
    ensures Kept(SyncDir(fs), cold, packs)
    ensures Firm(At(fs, f), d) && !At(fs, f).torn ==> Firm(At(SyncDir(fs), f), d)
    ensures Now(fs, f) == Some(d) && !At(fs, f).torn ==> Firm(At(SyncDir(fs), f), d)
  {
    SyncKeepsHealthy(fs, cold, packs);
  }

  lemma UnlinkKeeps(fs: Files, cold: Cold, packs: Packs, n: Name)
    requires Kept(fs, cold, packs) && n in packs && Pointed(fs, cold, n, packs[n])
    ensures Kept(Remove(fs, File(n, Body)), cold, packs) && Pointed(Remove(fs, File(n, Body)), cold, n, packs[n])
  {
    assert Healthy(fs, cold, n, packs[n]);
    OthersStayHealthy(fs, Remove(fs, File(n, Body)), cold, cold, packs, File(n, Body));
  }

  datatype Outcome = Finished | Failed | Stopped

  /** How the cold store misbehaves: uploads it refuses, and uploads it acknowledges but drops. */
  datatype Faults = Faults(refused: set<File>, dropped: set<File>)

  /** The cold store refuses or drops one of a packfile's files. */
  predicate Obstructs(faults: Faults, n: Name) {
    File(n, Body) in faults.refused + faults.dropped || File(n, Idx) in faults.refused || File(n, Lidx) in faults.refused
  }

  /** Those of the packs whose body is no longer here. */
  function Spilled(fs: Files, names: seq<Name>): set<Name> { set n | n in names && Now(fs, File(n, Body)) == None }

  lemma NothingSpilled(fs: Files, names: seq<Name>)
    ensures Spilled(fs, names[..0]) == {}
  {}

  lemma SpilledNext(fs: Files, names: seq<Name>, i: nat)
    requires i < |names|
    ensures names[i] in names[..i] || Now(fs, File(names[i], Body)).Some? ==> Spilled(fs, names[..i + 1]) == Spilled(fs, names[..i])
  {
    assert names[..i + 1] == names[..i] + [names[i]];
  }

  lemma SpilledMoves(fs: Files, fs': Files, names: seq<Name>, i: nat)
    requires i < |names| && names[i] !in names[..i] && Now(fs, File(names[i], Body)).Some?
    requires forall n :: n in names && n !in names[..i] ==> Now(fs, File(n, Body)).Some?
    requires forall n :: n != names[i] ==> Now(fs', File(n, Body)) == Now(fs, File(n, Body))
    ensures Now(fs', File(names[i], Body)) == None ==> |Spilled(fs', names[..i + 1])| == |Spilled(fs, names[..i])| + 1
    ensures Now(fs', File(names[i], Body)).Some? ==> Spilled(fs', names) == Spilled(fs, names[..i])
  {
    hide Now;
    assert names[..i + 1] == names[..i] + [names[i]];
    if Now(fs', File(names[i], Body)) == None {
      assert Spilled(fs', names[..i + 1]) == Spilled(fs, names[..i]) + {names[i]};
    }
  }

  class PackDir {
    var fs: Files
    var cold: Cold

    constructor (fs: Files, cold: Cold)
      ensures this.fs == fs && this.cold == cold
    {
      this.fs, this.cold := fs, cold;
    }

    method Upload(f: File, faults: Faults) returns (ok: bool)
      requires Now(fs, f).Some?
      modifies this`cold
      ensures ok == (f !in faults.refused)
      ensures cold == if ok && f !in faults.dropped then old(cold)[f := Now(fs, f).value] else old(cold)
    {
      ok := f !in faults.refused;
      if ok && f !in faults.dropped { cold := cold[f := Now(fs, f).value]; }
    }

    /** Index files go to the cold store too, and stay here. */
    method UploadIndex(n: Name, kind: Kind, faults: Faults, steps: nat, ghost packs: Packs) returns (r: Outcome, left: nat)
      requires Kept(fs, cold, packs) && n in packs && (kind.Idx? || kind.Lidx?)
      modifies this`cold
      ensures Kept(fs, cold, packs)
      ensures forall f :: f in old(cold) ==> f in cold && (f.pack != n ==> cold[f] == old(cold[f]))
      ensures r == Finished && Now(fs, File(n, kind)).Some? ==> File(n, kind) in cold || File(n, kind) in faults.dropped
      ensures left <= steps <= left + 1 && (r == Stopped ==> steps == 0) && (r == Failed ==> File(n, kind) in faults.refused)
    {
      left := steps;
      if Now(fs, File(n, kind)).None? { return Finished, left; }
      if left == 0 { return Stopped, left; }
      UploadKeeps(fs, cold, packs, File(n, kind));
      var ok := Upload(File(n, kind), faults);
      return if ok then Finished else Failed, left - 1;
    }

    /** The marker is made durable, bytes and name, before the body is unlinked. */
    method MarkAndUnlink(n: Name, steps: nat, ghost packs: Packs) returns (r: Outcome, left: nat)
      requires Kept(fs, cold, packs) && n in packs && Firm(At(fs, File(n, Body)), packs[n].body) && File(n, Body) in cold
      modifies this`fs
      ensures Kept(fs, cold, packs)
      ensures forall f: File :: f.pack != n ==> Now(fs, f) == old(Now(fs, f))
      ensures r == Finished ==> Now(fs, File(n, Body)) == None && Pointed(fs, cold, n, packs[n])
      ensures r == (if steps < 4 then Stopped else Finished) && (r == Finished ==> left == steps - 4)
      ensures r == Stopped ==> Now(fs, File(n, Body)) == old(Now(fs, File(n, Body)))
    {
      hide AllHealthy;
      r, left := Stopped, steps;
      var marker := File(n, Marker);
      if left == 0 { return; }
      left := left - 1;
      MarkerKeeps(fs, cold, packs, n, WriteFile(fs, marker, Key(File(n, Body))));
      fs := WriteFile(fs, marker, Key(File(n, Body)));
      if left == 0 { return; }
      left := left - 1;
      MarkerKeeps(fs, cold, packs, n, SyncFile(fs, marker));
      fs := SyncFile(fs, marker);
      if left == 0 { return; }
      left := left - 1;
      SyncKeeps(fs, cold, packs, marker, Key(File(n, Body)));
      fs := SyncDir(fs);
      if left == 0 { return; }
      left := left - 1;
      UnlinkKeeps(fs, cold, packs, n);
      fs := Remove(fs, File(n, Body));
      r := Finished;
    }

    /** Spill one body. The node may stop before any step. */
    method TierOne(n: Name, faults: Faults, steps: nat, ghost packs: Packs) returns (r: Outcome, left: nat)
      requires Kept(fs, cold, packs) && n in packs && Firm(At(fs, File(n, Body)), packs[n].body)
      modifies this
      ensures Kept(fs, cold, packs)
      ensures forall f: File :: f.pack != n ==> Now(fs, f) == old(Now(fs, f))
      ensures forall f :: f in old(cold) ==> f in cold && (f.pack != n ==> cold[f] == old(cold[f]))
      ensures r == Finished ==> Now(fs, File(n, Body)) == None && Pointed(fs, cold, n, packs[n])
      ensures r == Finished && faults.dropped == {} ==> Tiered(cold, n, packs[n])
      ensures r == Finished ==> steps <= left + 8
      ensures r == Stopped ==> steps < 8
      ensures r == Failed ==> Obstructs(faults, n)
      ensures r != Finished ==> Now(fs, File(n, Body)) == old(Now(fs, File(n, Body)))
    {
      r, left := Stopped, steps;
      if left == 0 { return; }
      left := left - 1;
      UploadKeeps(fs, cold, packs, File(n, Body));
      var ok := Upload(File(n, Body), faults);
      if !ok { return Failed, left; }
      if left == 0 { return; }
      left := left - 1;
      if File(n, Body) !in cold { return Failed, left; }
      r, left := UploadIndex(n, Idx, faults, left, packs);
      if r != Finished { return; }
      r, left := UploadIndex(n, Lidx, faults, left, packs);
      if r != Finished { return; }
      assert Healthy(fs, cold, n, packs[n]);
      r, left := MarkAndUnlink(n, left, packs);
    }

    /** Spill every local body that has no marker yet. Wherever the node stops, and whatever
        the cold store refuses or drops, every pack stays within reach. */
    method TierPacks(names: seq<Name>, faults: Faults, steps: nat, ghost packs: Packs) returns (r: Outcome, tiered: nat)
      requires Kept(fs, cold, packs)
      requires forall n :: n in names ==> n in packs && Now(fs, File(n, Body)).Some?
      modifies this
      ensures Kept(fs, cold, packs)
      ensures forall n, after :: n in packs && MaySurvive(fs, after) ==> Usable(after, cold, n, packs[n])
      ensures r == Finished ==> forall n :: n in names && old(Now(fs, File(n, Marker)).None?) ==>
        Now(fs, File(n, Body)) == None && (faults.dropped == {} ==> Tiered(cold, n, packs[n]))
      ensures tiered == |Spilled(fs, names)|
      ensures r == Stopped ==> steps < 8 * |names|
      ensures r == Failed ==> exists n :: n in names && Obstructs(faults, n)
    {
      hide AllHealthy, ColdSound, Tiered, MaySurvive, SyncDir, Spilled, Obstructs, At;
      var left: nat := steps;
      tiered, r := 0, Finished;
      NothingSpilled(fs, names);
      for i := 0 to |names|
        invariant r == Finished && Kept(fs, cold, packs) && left + 8 * i >= steps
        invariant tiered == |Spilled(fs, names[..i])|
        invariant forall n :: n in names && n !in names[..i] ==> Now(fs, File(n, Body)).Some?
        invariant forall n :: n in names[..i] ==> Now(fs, File(n, Marker)).Some?
        invariant forall n :: n in packs && n !in names[..i] ==> forall k :: Now(fs, File(n, k)) == old(Now(fs, File(n, k)))
        invariant forall n :: n in names[..i] && old(Now(fs, File(n, Marker)).None?) ==>
          && Now(fs, File(n, Body)) == None && Now(fs, File(n, Marker)).Some?
          && (faults.dropped == {} ==> Tiered(cold, n, packs[n]))
      {
        var n := names[i];
        SpilledNext(fs, names, i);
        if Now(fs, File(n, Marker)).Some? { continue; }
        ghost var fs0 := fs;
        UnmarkedIsFirm(fs, cold, packs, n);
        ghost var before := cold;
        r, left := TierOne(n, faults, left, packs);
        SpilledMoves(fs0, fs, names, i);
        if r != Finished { break; }
        forall m | m != n && m in packs && Tiered(before, m, packs[m]) ensures Tiered(cold, m, packs[m]) {
          TieredStays(before, cold, m, packs[m]);
        }
        tiered := tiered + 1;
      }
      assert names[..|names|] == names;
      forall n, after | n in packs && MaySurvive(fs, after) ensures Usable(after, cold, n, packs[n]) {
        KeptSurvives(fs, after, cold, packs, n);
      }
    }

    /** Bring a body back for reading, checked before it is published. */
    method EnsureLocal(n: Name, check: (Name, Data) -> bool, steps: nat, ghost packs: Packs) returns (r: Outcome, left: nat)
      modifies this`fs
      ensures Now(fs, File(n, Body)) != old(Now(fs, File(n, Body))) ==>
        Now(fs, File(n, Body)).Some? && check(n, Now(fs, File(n, Body)).value)
      ensures old(Kept(fs, cold, packs)) && n in packs && check(n, packs[n].body) ==>
        Kept(fs, cold, packs) && r != Failed && (r == Finished ==> Now(fs, File(n, Body)) == Some(packs[n].body))
      ensures old(Now(fs, File(n, Body)).Some? || Now(fs, File(n, Marker)).None?) ==> fs == old(fs) && r == Finished
      ensures r == Finished ==> Now(fs, File(n, Body)).Some? || old(Now(fs, File(n, Marker)).None?)
      ensures r == Stopped ==> steps < 4
      ensures r == Finished && old(Now(fs, File(n, Body)).None? && Now(fs, File(n, Marker)).Some?) ==>
        Firm(At(fs, File(n, Body)), Now(fs, File(n, Body)).value)
    {
      hide AllHealthy, ColdSound;
      r, left := Finished, steps;
      ghost var ok := Kept(fs, cold, packs) && n in packs && check(n, packs[n].body);
      if ok { WithinReach(fs, cold, packs, n); }
      if Now(fs, File(n, Body)).Some? || Now(fs, File(n, Marker)).None? { return; }
      var key := Now(fs, File(n, Marker)).value;
      if !key.Key? || key.file !in cold { return Failed, left; }
      var body := cold[key.file];
      if !check(n, body) { return Failed, left; }
      r := Stopped;
      var temp := File(n, Temp);
      if left == 0 { return; }
      left := left - 1;
      if ok { TempKeeps(fs, cold, packs, n, WriteFile(fs, temp, body)); }
      fs := WriteFile(fs, temp, body);
      if left == 0 { return; }
      left := left - 1;
      if ok { TempKeeps(fs, cold, packs, n, SyncFile(fs, temp)); }
      fs := SyncFile(fs, temp);
      if left == 0 { return; }
      left := left - 1;
      if ok { PublishKeeps(fs, cold, packs, n); }
      fs := Rename(fs, temp, File(n, Body));
      if left == 0 { return; }
      left := left - 1;
      if ok { SyncKeeps(fs, cold, packs, File(n, Body), body); }
      fs := SyncDir(fs);
      r := Finished;
    }
  }

  lemma WithinReach(fs: Files, cold: Cold, packs: Packs, n: Name)
    requires Kept(fs, cold, packs) && n in packs
    ensures Now(fs, File(n, Body)) == Some(packs[n].body) || (Now(fs, File(n, Body)) == None && Pointed(fs, cold, n, packs[n]))
  {
    assert Healthy(fs, cold, n, packs[n]);
  }

  lemma TempKeeps(fs: Files, cold: Cold, packs: Packs, n: Name, fs': Files)
    requires Kept(fs, cold, packs) && forall f :: f != File(n, Temp) ==> At(fs', f) == At(fs, f)
    ensures Kept(fs', cold, packs)
  {
    if n in packs { assert Healthy(fs, cold, n, packs[n]); }
    OthersStayHealthy(fs, fs', cold, cold, packs, File(n, Temp));
  }

  lemma PublishKeeps(fs: Files, cold: Cold, packs: Packs, n: Name)
    requires Kept(fs, cold, packs) && n in packs && Pointed(fs, cold, n, packs[n])
    requires Now(fs, File(n, Temp)) == Some(packs[n].body) && !At(fs, File(n, Temp)).torn
    ensures Kept(Rename(fs, File(n, Temp), File(n, Body)), cold, packs)
  {
    TempKeeps(fs, cold, packs, n, Remove(fs, File(n, Temp)));
    assert Healthy(Remove(fs, File(n, Temp)), cold, n, packs[n]);
    OthersStayHealthy(Remove(fs, File(n, Temp)), Rename(fs, File(n, Temp), File(n, Body)), cold, cold, packs, File(n, Body));
  }

  lemma TieredStays(cold: Cold, cold': Cold, n: Name, p: Pack)
    requires Tiered(cold, n, p) && forall f :: f in cold && f.pack == n ==> f in cold' && cold'[f] == cold[f]
    ensures Tiered(cold', n, p)
  {}

  lemma UnmarkedIsFirm(fs: Files, cold: Cold, packs: Packs, n: Name)
    requires Kept(fs, cold, packs) && n in packs && Now(fs, File(n, Marker)).None?
    ensures Firm(At(fs, File(n, Body)), packs[n].body)
  {
    assert Healthy(fs, cold, n, packs[n]);
  }

  lemma KeptSurvives(fs: Files, after: Files, cold: Cold, packs: Packs, n: Name)
    requires Kept(fs, cold, packs) && n in packs && MaySurvive(fs, after)
    ensures Usable(after, cold, n, packs[n])
  {
    assert Healthy(fs, cold, n, packs[n]);
    HealthySurvives(fs, after, cold, n, packs[n]);
  }
}
